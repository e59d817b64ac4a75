/** What the command steps promise, one command at a time and across commands. */
module SessionProperties {
  import opened Records
  import opened Validators
  import opened Tokenizer
  import opened IsbnOrder
  import opened BookStore
  import opened FinanceStore
  import opened Session

  // ---------------------------------------------------------------------------
  // The invariant holds from the start and is kept by every command
  // ---------------------------------------------------------------------------

  lemma FreshStartInv()
    ensures Inv(FreshStart())
    ensures CurrentPrivilege(FreshStart()) == 0
  {
    assert (set u | u in FreshStart().loginStack) == {};
  }

  lemma StackSetSnoc(s: seq<string>, u: string)
    ensures (set x | x in s + [u]) == (set x | x in s) + {u}
  {
    assert forall x :: x in s + [u] <==> x in s || x == u;
  }

  /** Under the invariant the current privilege is 0 (nobody logged in) or a real privilege. */
  lemma CurrentPrivilegeRange(st: SysState)
    requires Inv(st)
    ensures CurrentPrivilege(st) in {0, 1, 3, 7}
    ensures CurrentPrivilege(st) == 0 <==> st.loginStack == []
  {
    if st.loginStack != [] {
      var top := st.loginStack[|st.loginStack| - 1];
      assert top in st.accounts;
    }
  }

  lemma SuKeepsInv(st: SysState, args: seq<string>)
    requires Inv(st)
    ensures Inv(Su(st, args).st)
  {
    if Su(st, args).out == Silent {
      StackSetSnoc(st.loginStack, args[0]);
      var s2 := Su(st, args).st;
      forall i | 0 <= i < |s2.loginStack|
        ensures s2.loginStack[i] in s2.accounts
      {
        if i < |st.loginStack| {
          assert s2.loginStack[i] == st.loginStack[i];
        }
      }
    }
  }

  lemma LogoutKeepsInv(st: SysState)
    requires Inv(st)
    ensures Inv(Logout(st).st)
  {
    if st.loginStack != [] {
      var user := st.loginStack[|st.loginStack| - 1];
      var rest := st.loginStack[..|st.loginStack| - 1];
      assert st.loginStack == rest + [user];
      StackSetSnoc(rest, user);
      var s2 := Logout(st).st;
      forall i | 0 <= i < |rest|
        ensures rest[i] in s2.accounts
      {
        assert rest[i] == st.loginStack[i];
      }
    }
  }

  lemma RegisterKeepsInv(st: SysState, args: seq<string>)
    requires Inv(st)
    ensures Inv(Register(st, args).st)
  {
  }

  lemma PasswdKeepsInv(st: SysState, args: seq<string>)
    requires Inv(st)
    ensures Inv(Passwd(st, args).st)
  {
  }

  lemma UseraddKeepsInv(st: SysState, args: seq<string>)
    requires Inv(st)
    ensures Inv(Useradd(st, args).st)
  {
  }

  lemma DeleteKeepsInv(st: SysState, args: seq<string>)
    requires Inv(st)
    ensures Inv(Delete(st, args).st)
  {
    if Delete(st, args).out == Silent {
      var u := args[0];
      forall i | 0 <= i < |st.loginStack|
        ensures st.loginStack[i] != u
      {
        assert st.loginStack[i] in st.loggedIn;
      }
    }
  }

  lemma SelectKeepsInv(st: SysState, args: seq<string>)
    requires Inv(st)
    ensures Inv(Select(st, args).st)
  {
  }

  lemma BuyKeepsInv(st: SysState, args: seq<string>)
    requires Inv(st)
    ensures Inv(Buy(st, args).st)
  {
  }

  lemma ImportKeepsInv(st: SysState, args: seq<string>)
    requires Inv(st)
    ensures Inv(Import(st, args).st)
  {
  }

  /** The edits `modify` has accepted so far fit the record fields, and a new ISBN is free. */
  predicate EditsFit(p: Pending, current: string, books: map<string, Book>) {
    && (p.newIsbn != "" ==> |p.newIsbn| <= 20 && p.newIsbn != current && p.newIsbn !in books)
    && |p.name| <= 60 && |p.author| <= 60 && |p.keyword| <= 60
  }

  lemma {:induction false} ScanModifyFits(p: Pending, args: seq<string>, current: string, books: map<string, Book>)
    requires EditsFit(p, current, books)
    ensures ScanModify(p, args, current, books).Some? ==> EditsFit(ScanModify(p, args, current, books).value, current, books)
    decreases |args|
  {
    if args != [] {
      var next := ModifyArg(p, args[0], current, books);
      if next.Some? {
        assert EditsFit(next.value, current, books);
        ScanModifyFits(next.value, args[1..], current, books);
      }
    }
  }

  lemma ModifyKeepsInv(st: SysState, args: seq<string>)
    requires Inv(st)
    ensures Inv(Modify(st, args).st)
  {
    if Modify(st, args).out == Silent {
      var user := CurrentUser(st);
      var current := st.selected[user];
      ScanModifyFits(NO_EDITS, args, current, st.books);
      var p := ScanModify(NO_EDITS, args, current, st.books).value;
      if current in st.books {
        var r := ModifiedBooks(st.books, current, p.newIsbn, p.name, p.author, p.keyword, p.price);
        var key := if p.newIsbn != "" then p.newIsbn else current;
        forall k | k in r
          ensures r[k].isbn == k && r[k].quantity >= 0
          ensures |r[k].isbn| <= 20 && |r[k].name| <= 60 && |r[k].author| <= 60 && |r[k].keyword| <= 60
        {
          if k != key {
            assert k in st.books && k != current;
          }
        }
      }
    }
  }

  /** Every command keeps the invariant, so it holds after any sequence of input lines. */
  lemma ProcessKeepsInv(st: SysState, line: string)
    requires Inv(st)
    ensures Inv(Process(st, line).st)
  {
    var trimmed := Trimmed(line);
    if trimmed != "" && Tokens(trimmed) != [] {
      var parts := Tokens(trimmed);
      var cmd, args := parts[0], parts[1..];
      if cmd == "su" { SuKeepsInv(st, args); }
      else if cmd == "logout" { LogoutKeepsInv(st); }
      else if cmd == "register" { RegisterKeepsInv(st, args); }
      else if cmd == "passwd" { PasswdKeepsInv(st, args); }
      else if cmd == "useradd" { UseraddKeepsInv(st, args); }
      else if cmd == "delete" { DeleteKeepsInv(st, args); }
      else if cmd == "buy" { BuyKeepsInv(st, args); }
      else if cmd == "select" { SelectKeepsInv(st, args); }
      else if cmd == "modify" { ModifyKeepsInv(st, args); }
      else if cmd == "import" { ImportKeepsInv(st, args); }
    }
  }

  // ---------------------------------------------------------------------------
  // su and logout
  // ---------------------------------------------------------------------------

  /** `su` with a password succeeds exactly for an existing account with that password, whatever the current privilege. */
  lemma SuWithPassword(st: SysState, userId: string, password: string)
    requires password != ""
    ensures Su(st, [userId, password]).out == Silent <==>
      ValidUserId(userId) && ValidPassword(password) && userId in st.accounts && st.accounts[userId].password == password
  {
  }

  /** `su` without a password succeeds exactly for an existing account of strictly lower privilege than the current one. */
  lemma SuWithoutPassword(st: SysState, userId: string)
    ensures Su(st, [userId]).out == Silent <==>
      ValidUserId(userId) && userId in st.accounts && CurrentPrivilege(st) > st.accounts[userId].privilege
  {
  }

  /** A successful `su` pushes exactly one entry and makes that user current; a failed one changes nothing. */
  lemma SuPushesOne(st: SysState, args: seq<string>)
    requires Inv(st)
    ensures Su(st, args).out == Silent || Su(st, args) == Outcome(st, Invalid)
    ensures Su(st, args).out == Silent ==>
      && |args| >= 1
      && Su(st, args).st.loginStack == st.loginStack + [args[0]]
      && CurrentUser(Su(st, args).st) == args[0]
      && CurrentPrivilege(Su(st, args).st) == st.accounts[args[0]].privilege
      && Su(st, args).st.accounts == st.accounts && Su(st, args).st.books == st.books
      && Su(st, args).st.ledger == st.ledger && Su(st, args).st.selected == st.selected
  {
  }

  /**
   * `logout` is refused with nobody logged in; otherwise it pops exactly the top
   * entry, returning to the previous user, and drops that user's selection.
   */
  lemma LogoutPopsOne(st: SysState)
    requires Inv(st)
    ensures st.loginStack == [] ==> Logout(st) == Outcome(st, Invalid)
    ensures st.loginStack != [] ==>
      var s2 := Logout(st).st;
      && Logout(st).out == Silent
      && s2.loginStack + [CurrentUser(st)] == st.loginStack
      && CurrentUser(s2) == (if |st.loginStack| >= 2 then st.loginStack[|st.loginStack| - 2] else "")
      && s2.selected == st.selected - {CurrentUser(st)}
      && s2.loggedIn == (set u | u in s2.loginStack)
      && s2.accounts == st.accounts && s2.books == st.books && s2.ledger == st.ledger
  {
    if st.loginStack != [] {
      LogoutKeepsInv(st);
      var s2 := Logout(st).st;
      var rest := st.loginStack[..|st.loginStack| - 1];
      assert s2.loginStack == rest;
      assert rest + [CurrentUser(st)] == st.loginStack;
      if |st.loginStack| >= 2 {
        assert rest[|rest| - 1] == st.loginStack[|st.loginStack| - 2];
      }
    }
  }

  /** Logging in and out again restores the session state, apart from the user's selection. */
  lemma SuThenLogout(st: SysState, args: seq<string>)
    requires Inv(st)
    requires Su(st, args).out == Silent
    ensures Logout(Su(st, args).st).st == st.(selected := st.selected - {args[0]})
  {
    var s2 := Su(st, args).st;
    assert s2.loginStack[..|s2.loginStack| - 1] == st.loginStack;
    StackSetSnoc(st.loginStack, args[0]);
  }

  // ---------------------------------------------------------------------------
  // Account commands
  // ---------------------------------------------------------------------------

  /** `register` creates a customer account; the same user ID cannot be registered twice. */
  lemma RegisterOnce(st: SysState, args: seq<string>)
    ensures Register(st, args).out == Silent ==>
      && Register(st, args).st.accounts == st.accounts[args[0] := Account(args[0], args[1], args[2], 1)]
      && args[0] !in st.accounts
      && Register(Register(st, args).st, args) == Outcome(Register(st, args).st, Invalid)
  {
  }

  /** `useradd` succeeds only for a clerk or above, and creates privilege 1, 3 or 7 strictly below the caller's. */
  lemma UseraddBounds(st: SysState, args: seq<string>)
    requires Inv(st)
    ensures Useradd(st, args).out == Silent ==>
      && CurrentPrivilege(st) in {3, 7}
      && args[0] !in st.accounts
      && var created := Useradd(st, args).st.accounts[args[0]];
         && created.privilege in {1, 3, 7}
         && created.privilege < CurrentPrivilege(st)
         && Useradd(st, args).st.accounts == st.accounts[args[0] := created]
  {
    CurrentPrivilegeRange(st);
  }

  /**
   * `useradd` with valid fields, a new user ID and a privilege of 1, 3 or 7 below
   * the caller's (a clerk or above) always creates exactly that account.
   */
  lemma UseraddSucceeds(st: SysState, userId: string, password: string, privilegeStr: string, username: string)
    requires CurrentPrivilege(st) >= 3
    requires ValidUserId(userId) && ValidPassword(password) && ValidUsername(username)
    requires privilegeStr == "1" || privilegeStr == "3" || privilegeStr == "7"
    requires DigitOf(privilegeStr[0]) < CurrentPrivilege(st)
    requires userId !in st.accounts
    ensures Useradd(st, [userId, password, privilegeStr, username]) ==
      Outcome(st.(accounts := st.accounts[userId := Account(userId, password, username, DigitOf(privilegeStr[0]))]), Silent)
  {
  }

  /** `root` can create a clerk (privilege 3). */
  lemma RootCreatesClerk(st: SysState, userId: string, password: string, username: string)
    requires CurrentPrivilege(st) == 7
    requires ValidUserId(userId) && ValidPassword(password) && ValidUsername(username)
    requires userId !in st.accounts
    ensures Useradd(st, [userId, password, "3", username]).out == Silent
    ensures Useradd(st, [userId, password, "3", username]).st.accounts[userId].privilege == 3
  {
    UseraddSucceeds(st, userId, password, "3", username);
  }

  /** A clerk can only create customers. */
  lemma ClerkCreatesCustomers(st: SysState, args: seq<string>)
    requires CurrentPrivilege(st) == 3
    ensures Useradd(st, args).out == Silent ==> Useradd(st, args).st.accounts[args[0]].privilege == 1
  {
  }

  /** An account logged in anywhere on the stack cannot be deleted. */
  lemma DeleteLoggedInRefused(st: SysState, userId: string)
    requires userId in st.loggedIn
    ensures Delete(st, [userId]) == Outcome(st, Invalid)
  {
  }

  /** `delete` by privilege 7 of an existing account that is logged in nowhere always succeeds. */
  lemma DeleteSucceeds(st: SysState, userId: string)
    requires CurrentPrivilege(st) == 7 && ValidUserId(userId)
    requires userId in st.accounts && userId !in st.loggedIn
    ensures Delete(st, [userId]) == Outcome(st.(accounts := st.accounts - {userId}), Silent)
  {
  }

  /** A successful `delete` removes exactly that account, which was on no stack entry. */
  lemma DeleteRemovesOne(st: SysState, args: seq<string>)
    requires Inv(st)
    ensures Delete(st, args).out == Silent ==>
      && Delete(st, args).st.accounts == st.accounts - {args[0]}
      && args[0] in st.accounts
      && forall i :: 0 <= i < |st.loginStack| ==> st.loginStack[i] != args[0]
  {
    if Delete(st, args).out == Silent {
      forall i | 0 <= i < |st.loginStack|
        ensures st.loginStack[i] != args[0]
      {
        assert st.loginStack[i] in st.loggedIn;
      }
    }
  }

  /** Without the current password only privilege 7 can change a password; with it any logged-in user can. */
  lemma PasswdRules(st: SysState, userId: string, current: string, newPassword: string)
    requires current != ""
    ensures Passwd(st, [userId, newPassword]).out == Silent <==>
      CurrentPrivilege(st) == 7 && ValidUserId(userId) && ValidPassword(newPassword) && userId in st.accounts
    ensures Passwd(st, [userId, current, newPassword]).out == Silent <==>
      && CurrentPrivilege(st) >= 1 && ValidUserId(userId) && ValidPassword(current) && ValidPassword(newPassword)
      && userId in st.accounts && st.accounts[userId].password == current
  {
  }

  // ---------------------------------------------------------------------------
  // Book commands
  // ---------------------------------------------------------------------------

  /**
   * A successful `buy` lowers the stock by exactly the quantity and appends exactly
   * one income entry of price times quantity, which is also what is printed.
   */
  lemma BuyBookkeeping(st: SysState, isbn: string, quantityStr: string)
    ensures Buy(st, [isbn, quantityStr]).out.Charged? || Buy(st, [isbn, quantityStr]) == Outcome(st, Invalid)
    ensures Buy(st, [isbn, quantityStr]).out.Charged? ==>
      var s2 := Buy(st, [isbn, quantityStr]).st;
      var q := DigitsValue(quantityStr);
      var b := st.books[isbn];
      && CurrentPrivilege(st) >= 1 && ValidIsbn(isbn) && ValidQuantity(quantityStr)
      && 0 < q <= b.quantity
      && s2.books == st.books[isbn := b.(quantity := b.quantity - q)]
      && s2.ledger == st.ledger + [Transaction(b.price * q, true)]
      && Buy(st, [isbn, quantityStr]).out == Charged(b.price * q)
      && s2.accounts == st.accounts && s2.loginStack == st.loginStack
      && s2.selected == st.selected && s2.loggedIn == st.loggedIn
  {
  }

  /** After a purchase, the finance totals over the last entry are its charge as income and nothing spent. */
  lemma BuyThenFinance(st: SysState, args: seq<string>)
    requires Buy(st, args).out.Charged?
    ensures Income(Window(Buy(st, args).st.ledger, 1)) == Buy(st, args).out.total
    ensures Expenditure(Window(Buy(st, args).st.ledger, 1)) == 0
    ensures Income(Window(Buy(st, args).st.ledger, -1)) == Income(Window(st.ledger, -1)) + Buy(st, args).out.total
  {
    var t := Transaction(Buy(st, args).out.total, true);
    LatestWindow(st.ledger, t);
    AppendAllTime(st.ledger, t);
  }

  /** `select` makes the ISBN the current user's selection, creating an empty record only when it is new. */
  lemma SelectCreates(st: SysState, isbn: string)
    ensures Select(st, [isbn]).out == Silent ==>
      var s2 := Select(st, [isbn]).st;
      && isbn in s2.books
      && s2.selected == st.selected[CurrentUser(st) := isbn]
      && (isbn in st.books ==> s2.books == st.books)
      && (isbn !in st.books ==> s2.books == st.books[isbn := EmptyBook(isbn)])
      && s2.accounts == st.accounts && s2.ledger == st.ledger && s2.loginStack == st.loginStack
  {
  }

  /** A successful `import` adds exactly the quantity to the selected book and appends one expenditure entry. */
  lemma ImportRestocks(st: SysState, args: seq<string>)
    requires Inv(st)
    ensures Import(st, args).out == Silent || Import(st, args) == Outcome(st, Invalid)
    ensures Import(st, args).out == Silent ==>
      var s2 := Import(st, args).st;
      var isbn := st.selected[CurrentUser(st)];
      var q := DigitsValue(args[0]);
      && CurrentPrivilege(st) >= 3 && q > 0
      && s2.ledger == st.ledger + [Transaction(PriceCents(args[1]), false)]
      && PriceCents(args[1]) > 0
      && (isbn in st.books ==> s2.books == st.books[isbn := st.books[isbn].(quantity := st.books[isbn].quantity + q)])
      && (isbn !in st.books ==> s2.books == st.books)
  {
  }

  /** Each field may be given to `modify` at most once: a repeated key rejects the whole command. */
  lemma {:induction false} ScanModifyRepeat(p: Pending, args: seq<string>, current: string, books: map<string, Book>)
    ensures ScanModify(p, args, current, books).Some? ==>
      && (forall i :: 0 <= i < |args| ==> FieldOf(args[i]).Some? && FieldOf(args[i]).value !in p.used)
      && (forall i, j :: 0 <= i < j < |args| ==> FieldOf(args[i]) != FieldOf(args[j]))
    decreases |args|
  {
    if args != [] && ScanModify(p, args, current, books).Some? {
      var q := ModifyArg(p, args[0], current, books).value;
      ScanModifyRepeat(q, args[1..], current, books);
      assert q.used == p.used + {FieldOf(args[0]).value};
      forall i | 0 <= i < |args|
        ensures FieldOf(args[i]).Some? && FieldOf(args[i]).value !in p.used
      {
        if i > 0 {
          assert args[i] == args[1..][i - 1];
        }
      }
      forall i, j | 0 <= i < j < |args|
        ensures FieldOf(args[i]) != FieldOf(args[j])
      {
        assert args[j] == args[1..][j - 1];
        if i > 0 {
          assert args[i] == args[1..][i - 1];
        }
      }
    }
  }

  lemma ModifyRepeatRefused(st: SysState, args: seq<string>, i: nat, j: nat)
    requires i < j < |args| && FieldOf(args[i]) == FieldOf(args[j])
    ensures Modify(st, args) == Outcome(st, Invalid)
  {
    if CurrentPrivilege(st) >= 3 && CurrentUser(st) in st.selected {
      ScanModifyRepeat(NO_EDITS, args, st.selected[CurrentUser(st)], st.books);
    }
  }

  /**
   * A successful `modify` of an existing selected book files it under the new ISBN
   * (or the old one), with the given fields replaced and its stock unchanged, and
   * the selection follows the new ISBN.
   */
  lemma ModifyApplies(st: SysState, args: seq<string>)
    requires Inv(st)
    ensures Modify(st, args).out == Silent || Modify(st, args) == Outcome(st, Invalid)
    ensures Modify(st, args).out == Silent && st.selected[CurrentUser(st)] in st.books ==>
      var user := CurrentUser(st);
      var current := st.selected[user];
      var p := ScanModify(NO_EDITS, args, current, st.books).value;
      var key := if p.newIsbn != "" then p.newIsbn else current;
      var s2 := Modify(st, args).st;
      && CurrentPrivilege(st) >= 3
      && (p.newIsbn != "" ==> current !in s2.books)
      && key in s2.books
      && s2.books[key].isbn == key
      && s2.books[key].quantity == st.books[current].quantity
      && s2.books[key].name == (if p.name != "" then p.name else st.books[current].name)
      && s2.books[key].author == (if p.author != "" then p.author else st.books[current].author)
      && s2.books[key].keyword == (if p.keyword != "" then p.keyword else st.books[current].keyword)
      && s2.books[key].price == (if p.price >= 0 then p.price else st.books[current].price)
      && s2.selected == st.selected[user := key]
      && forall k :: k in st.books && k != current ==> k in s2.books && s2.books[k] == st.books[k]
  {
    if Modify(st, args).out == Silent {
      var current := st.selected[CurrentUser(st)];
      ScanModifyFits(NO_EDITS, args, current, st.books);
    }
  }

  /** `show` lists the catalog's matching books, each once, in strictly ascending ISBN order. */
  lemma ShowListing(st: SysState, args: seq<string>)
    requires Inv(st)
    ensures Show(st, args).st == st
    ensures Show(st, args).out.Listing? ==>
      var f := ShowFilter(args).value;
      var listed := Show(st, args).out.listed;
      && CurrentPrivilege(st) >= 1
      && (forall i, j :: 0 <= i < j < |listed| ==> LexLess(listed[i].isbn, listed[j].isbn))
      && (forall b :: b in listed <==> b.isbn in st.books && st.books[b.isbn] == b && Matches(b, f.searchType, f.value))
  {
    if Show(st, args).out.Listing? {
      var f := ShowFilter(args).value;
      SearchSorted(st.books, f.searchType, f.value);
      SearchMembers(st.books, f.searchType, f.value);
    }
  }

  /** A bare `show` by a logged-in user lists the whole catalog. */
  lemma ShowEverything(st: SysState)
    requires CurrentPrivilege(st) >= 1
    ensures Show(st, []).out == Listing(seq(|st.books|, i requires 0 <= i < |st.books| => st.books[SortedKeys(st.books.Keys)[i]]))
  {
    SearchEverything(st.books, "");
  }

  // ---------------------------------------------------------------------------
  // Finance
  // ---------------------------------------------------------------------------

  /** `show finance count` reports the last `count` entries, refusing more than the ledger holds. */
  lemma ShowFinanceWindow(st: SysState, countStr: string)
    requires CurrentPrivilege(st) == 7 && ValidQuantity(countStr)
    ensures var count := DigitsValue(countStr);
      && (count == 0 ==> ShowFinance(st, [countStr]) == Outcome(st, BlankLine))
      && (count > |st.ledger| ==> ShowFinance(st, [countStr]) == Outcome(st, Invalid))
      && (0 < count <= |st.ledger| ==>
            var w := st.ledger[|st.ledger| - count..];
            ShowFinance(st, [countStr]) == Outcome(st, Totals(Income(w), Expenditure(w))))
  {
    var count := DigitsValue(countStr);
    if 0 < count <= |st.ledger| {
      assert Window(st.ledger, count) == st.ledger[|st.ledger| - count..];
    }
  }

  // ---------------------------------------------------------------------------
  // The quantity of import passed on as a 32-bit int
  // ---------------------------------------------------------------------------

  /** Below 2^31 the conversion is the identity, so the source's import and the corrected one agree. */
  lemma ImportAgreesBelowInt32(st: SysState, args: seq<string>)
    requires ImportChecks(st, args).Some? ==> ImportChecks(st, args).value.quantity < 0x8000_0000
    ensures ImportAsWritten(st, args) == Import(st, args)
  {
  }

  lemma DigitsOf21474()
    ensures AllDigits("21474") && DigitsValue("21474") == 21474
  {
    DigitsSnocValue("", '2');
    assert "" + ['2'] == "2";
    DigitsSnocValue("2", '1');
    assert "2" + ['1'] == "21";
    DigitsSnocValue("21", '4');
    assert "21" + ['4'] == "214";
    DigitsSnocValue("214", '7');
    assert "214" + ['7'] == "2147";
    DigitsSnocValue("2147", '4');
    assert "2147" + ['4'] == "21474";
  }

  lemma DigitsOf2147483648()
    ensures AllDigits("2147483648") && DigitsValue("2147483648") == 2147483648
  {
    DigitsOf21474();
    DigitsSnocValue("21474", '8');
    assert "21474" + ['8'] == "214748";
    DigitsSnocValue("214748", '3');
    assert "214748" + ['3'] == "2147483";
    DigitsSnocValue("2147483", '6');
    assert "2147483" + ['6'] == "21474836";
    DigitsSnocValue("21474836", '4');
    assert "21474836" + ['4'] == "214748364";
    DigitsSnocValue("214748364", '8');
    assert "214748364" + ['8'] == "2147483648";
  }

  /** A store with one book "X" (no stock) selected by the logged-in `root`. */
  function OneBookSelected(): SysState {
    SysState(map["root" := ROOT_ACCOUNT], map["X" := EmptyBook("X")], [], ["root"], map["root" := "X"], {"root"})
  }

  /**
   * `import 2147483648 1` passes every check, records the expenditure, and the
   * quantity reaches the stock as -2147483648: the stock goes negative.
   */
  lemma ImportAsWrittenNegativeStock()
    ensures Inv(OneBookSelected())
    ensures ImportAsWritten(OneBookSelected(), ["2147483648", "1"]).out == Silent
    ensures ImportAsWritten(OneBookSelected(), ["2147483648", "1"]).st.books["X"].quantity == -2147483648
    ensures !Inv(ImportAsWritten(OneBookSelected(), ["2147483648", "1"]).st)
  {
    var st := OneBookSelected();
    assert (set u | u in st.loginStack) == {"root"};
    DigitsOf2147483648();
    assert ValidQuantity("2147483648");
    assert AllDigits("1") && ValidPrice("1");
    assert "1"[..0] == "";
    assert PriceCents("1") == 100;
    assert ImportChecks(st, ["2147483648", "1"]) == Some(ImportOrder("X", 2147483648, 100));
  }

  /** The corrected import on the same input adds the full quantity and keeps the invariant. */
  lemma ImportFullQuantity()
    ensures Import(OneBookSelected(), ["2147483648", "1"]).out == Silent
    ensures Import(OneBookSelected(), ["2147483648", "1"]).st.books["X"].quantity == 2147483648
    ensures Inv(Import(OneBookSelected(), ["2147483648", "1"]).st)
  {
    var st := OneBookSelected();
    assert (set u | u in st.loginStack) == {"root"};
    DigitsOf2147483648();
    assert ValidQuantity("2147483648");
    assert AllDigits("1") && ValidPrice("1");
    assert "1"[..0] == "";
    assert PriceCents("1") == 100;
    assert ImportChecks(st, ["2147483648", "1"]) == Some(ImportOrder("X", 2147483648, 100));
    ImportKeepsInv(st, ["2147483648", "1"]);
  }
}
