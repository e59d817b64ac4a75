# Bookstore management system — a verified model

This project models the command interpreter of a small bookstore in Dafny. The program is a single C++ file, `main.cpp`.

Each input line is trimmed and split on spaces, then sent by its first word to a handler:
- account commands: `su`, `logout`, `register`, `passwd`, `useradd`, `delete`;
- book commands: `show`, `buy`, `select`, `modify`, `import`;
- `show finance`;
- the placeholder commands `log` and `report`.

The handlers work on three stores:
- the accounts, keyed by user ID;
- the books, keyed by ISBN;
- an append-only ledger of income and expenditure entries.

They also keep per-run session state:
- a stack of logged-in user IDs (the top one is current);
- each user's selected ISBN;
- the set of user IDs that are logged in anywhere on the stack.

The model is organised like the program:

| module | file | models |
|---|---|---|
| `Records` | `records.dfy` | the account, book and transaction records and the built-in `root` account |
| `Validators` | `validators.dfy` | the format checks on user IDs, passwords, names, ISBNs, keywords, quantities and prices |
| `Tokenizer` | `tokenizer.dfy` | `trim` and `split` |
| `IsbnOrder` | `isbn_order.dfy` | the byte-wise order on ISBNs that keeps the book map sorted |
| `AccountStore` | `account_manager.dfy` | class `AccountManager` |
| `BookStore` | `book_manager.dfy` | class `BookManager`, including its keyword search |
| `FinanceStore` | `finance_manager.dfy` | class `FinanceManager` and its window totals |
| `Session` | `session.dfy` | the whole system as a value: a function from state and arguments to new state and output, per command |
| `SessionProperties` | `session_lemmas.dfy` | the invariant every command keeps, and per-command properties |
| `Bookstore` | `bookstore_system.dfy` | class `BookstoreSystem`: the session fields, the three managers and one method per command handler |

Each handler method of `BookstoreSystem` is proved to produce the new state and output given by the matching `Session` function. The loops in the source are `while` loops here, proved against specification functions:
- the validators' character scans;
- `trim` and `split`;
- the keyword split in `searchBooks`;
- the catalog and ledger scans;
- the `logout` stack scan;
- the argument loop of `modify`.

Representation choices:
- Money is counted in whole cents (`nat`). A valid price has at most two decimals, so the value is exact.
- Book stock is an unbounded `int`.
- The import quantity is converted to a 32-bit `int` in the as-written model only; see "## Findings".

Two behaviours of the code are easy to misread; the model follows the code:
- `logout` drops the popped user's selection each time an entry is popped, even if that user is still logged in lower on the stack.
- `delete` refuses any user ID that appears in the logged-in set, not only the current one.

## Model

| member | source | states |
|---|---|---|
| `Validators.ScanBounded` | main.cpp:21-62 | the shared scan: true exactly when the length is within bounds and every character belongs to the class |
| `Validators.IsValidUserId` | main.cpp:28-34 | accepts exactly 1 to 30 characters, all ASCII letters, digits or `_` |
| `Validators.IsValidPassword` | main.cpp:36-38 | same rule as user IDs |
| `Validators.IsValidUsername` | main.cpp:40-46 | accepts exactly 1 to 30 printable ASCII characters (codes 32–126) |
| `Validators.IsValidIsbn` | main.cpp:48-54 | accepts exactly 1 to 20 printable ASCII characters (codes 32–126) |
| `Validators.IsValidBookName` | main.cpp:56-62 | accepts exactly 1 to 60 printable ASCII characters (codes 32–126), none a double quote |
| `Validators.IsValidQuantity` | main.cpp:86-92 | accepts exactly 1 to 10 decimal digits |
| `Validators.IsValidKeyword` | main.cpp:64-84 | accepts exactly 1 to 60 printable ASCII characters (codes 32–126) other than `"`, whose `\|`-separated segments are all non-empty and pairwise distinct |
| `Validators.SegmentsJoin` | main.cpp:66-79 | the segments contain no `\|`, and joining them with `\|` gives back the original string |
| `Validators.SegmentsSnoc` | main.cpp:66-79 | appending a character extends the last segment, or opens a new one for `\|` |
| `Validators.SetOfSize` | main.cpp:81-83 | the set of a list is never larger than the list, and is the same size exactly when the elements are distinct |
| `Validators.EmptyPieceInvalid` | main.cpp:68-70 | an empty segment right before a `\|` (a leading or doubled `\|`) makes the keyword invalid |
| `Validators.BadKeywordCharInvalid` | main.cpp:73-74 | a character that is neither `\|` nor a printable non-quote makes the keyword invalid |
| `Validators.TrailingBarInvalid` | main.cpp:78 | an empty last segment (a trailing `\|`) makes the keyword invalid |
| `Validators.KeywordByCount` | main.cpp:81-83 | with non-empty segments, checking the set size equals checking pairwise distinctness |
| `Validators.DigitsValueBound` | main.cpp:86-92 | a digit string of length n is worth less than 10^n, so a valid quantity is below 10^10 |
| `Validators.DigitsValuePositive` | main.cpp:765-769 | a digit string is worth more than 0 exactly when one digit is not `0` |
| `Validators.IsValidPrice` | main.cpp:94-111 | accepts 1 to 13 characters of digits with at most one dot, which is not first and has at most two digits after it |
| `Validators.NotPriceTwoDots` | main.cpp:99-101 | a string with two dots is not a valid price |
| `Validators.NotPriceBadChar` | main.cpp:105-107 | a string with a character that is neither a digit nor a dot is not a valid price |
| `Validators.NotPriceLeadingDot` | main.cpp:109 | a string starting with a dot is not a valid price |
| `Validators.NotPriceLongFraction` | main.cpp:110 | a string with three or more digits after its dot is not a valid price |
| `Validators.DotIndex` | main.cpp:97-102 | the index of the first dot, or the length when there is none |
| `Validators.PriceCentsPositive` | main.cpp:959-964 | a valid price is worth more than nothing exactly when it has a digit other than `0`, so `totalCost <= 0` rejects just the all-zero prices |
| `Tokenizer.Trim` | main.cpp:450-455 | the result is the input with the leading and trailing spaces cut off |
| `Tokenizer.TrimmedShape` | main.cpp:450-455 | the trimmed string is a contiguous slice of the input, with only spaces around it, and it neither starts nor ends with a space |
| `Tokenizer.Split` | main.cpp:457-472 | the result is the space-separated token list of the input |
| `Tokenizer.SplitStateFacts` | main.cpp:457-472 | every token found so far is non-empty and space-free, and tokens plus pending token make up the input's non-space characters |
| `Tokenizer.TokensFacts` | main.cpp:457-472 | tokens are non-empty and contain no spaces, and concatenated they give the input with its spaces removed |
| `IsbnOrder.LexIrreflexive` | main.cpp:357-360 | the byte-wise order never puts a string before itself |
| `IsbnOrder.LexAsymmetric` | main.cpp:357-360 | no two strings are each before the other |
| `IsbnOrder.LexTransitive` | main.cpp:357-360 | the order is transitive |
| `IsbnOrder.LexTotal` | main.cpp:357-360 | any two distinct strings are ordered one way or the other |
| `IsbnOrder.LeastExists` | main.cpp:322 | every non-empty finite set of ISBNs has a least element |
| `IsbnOrder.LeastUnique` | main.cpp:322 | that least element is unique |
| `IsbnOrder.SortedKeys` | main.cpp:322 | the key order a sorted map is visited in: strictly ascending, holding exactly the set's elements |
| `IsbnOrder.SortedKeysFirst` | main.cpp:322 | the enumeration starts with the least key, followed by the others |
| `IsbnOrder.SortedKeysStep` | main.cpp:322 | visiting the least remaining key next keeps the visit equal to the sorted enumeration |
| `IsbnOrder.SortedKeysUnique` | main.cpp:357-360 | a strictly ascending list of exactly a set's keys is that set's enumeration. This is the key step of the argument that the final sort leaves the keys in the order they were visited; the lemma is about key lists, not the list of books the sort reorders |
| `AccountStore.AccountManager.constructor` | main.cpp:178-189 | starts from the stored accounts and adds `root` (password `sjtu`, privilege 7) only when it is missing |
| `AccountStore.AccountManager.AddAccount` | main.cpp:191-203 | succeeds exactly when the user ID is new, and then adds exactly that account; otherwise nothing changes |
| `AccountStore.AccountManager.DeleteAccount` | main.cpp:205-210 | removes exactly that user ID, whether or not it was present |
| `AccountStore.AccountManager.CheckPassword` | main.cpp:212-215 | true exactly when the account exists and has that password |
| `AccountStore.AccountManager.ChangePassword` | main.cpp:217-222 | replaces only that account's password, and only if it exists |
| `AccountStore.AccountManager.GetPrivilege` | main.cpp:224-227 | the account's privilege, or -1 for an unknown user ID |
| `AccountStore.AccountManager.Exists` | main.cpp:229-231 | true exactly when the user ID has an account |
| `BookStore.KeywordParts` | main.cpp:333-346 | the pieces the search splits a keyword field into: its `\|`-segments, without a trailing empty piece |
| `BookStore.SplitKeywords` | main.cpp:333-346 | the loop produces exactly those pieces |
| `BookStore.KeywordPartsMember` | main.cpp:333-350 | a non-empty search value is among the pieces exactly when it is among the segments |
| `BookStore.ValidKeywordParts` | main.cpp:333-346 | for a valid keyword field the pieces are exactly its segments |
| `BookStore.FilterSnoc` | main.cpp:322-352 | visiting one more book appends it to the result exactly when it matches |
| `BookStore.FilterMembers` | main.cpp:322-352 | the result holds exactly the visited books that match |
| `BookStore.FilterSorted` | main.cpp:322-352 | visiting keys in strictly ascending order gives results in strictly ascending ISBN order |
| `BookStore.FilterAll` | main.cpp:324-325 | with no search type every visited book is listed, in visit order |
| `BookStore.SearchSorted` | main.cpp:319-362 | search results are in strictly ascending ISBN order, so no book appears twice |
| `BookStore.SearchMembers` | main.cpp:319-362 | a book is in the result exactly when it is in the catalog and matches the search |
| `BookStore.SearchEverything` | main.cpp:324-325 | an empty search type lists the whole catalog in ISBN order |
| `BookStore.FilterByIsbn` | main.cpp:326-327 | filtering by ISBN over distinct keys keeps at most the one book filed under that ISBN |
| `BookStore.SearchByIsbn` | main.cpp:326-327 | an ISBN search gives exactly that book, or nothing when it is absent |
| `BookStore.SearchByKeyword` | main.cpp:332-350 | a book matches a non-empty keyword search exactly when the keyword is one of its segments |
| `BookStore.BookMatches` | main.cpp:324-351 | the per-book test of the search loop equals the match predicate |
| `BookStore.AdjustStock` | main.cpp:305-317 | changes only that book's stock, by exactly the given amount; the keys and every other book are unchanged |
| `BookStore.ModifiedBooks` | main.cpp:286-303 | an unknown ISBN changes nothing. Otherwise the entry is refiled under its new ISBN with only the given fields replaced, and every other book is unchanged |
| `BookStore.BookManager.constructor` | main.cpp:264-266 | starts from the stored catalog |
| `BookStore.BookManager.AddBook` | main.cpp:268-275 | succeeds exactly when the ISBN is new, and then adds an empty record for it (no name, price 0, stock 0) |
| `BookStore.BookManager.Exists` | main.cpp:277-279 | true exactly when the ISBN is in the catalog |
| `BookStore.BookManager.GetBook` | main.cpp:281-284 | the book filed under the ISBN, or none |
| `BookStore.BookManager.ModifyBook` | main.cpp:286-303 | the catalog becomes `ModifiedBooks` of the old one |
| `BookStore.BookManager.ImportBook` | main.cpp:305-309 | the stock of an existing book rises by the quantity; nothing else changes |
| `BookStore.BookManager.BuyBook` | main.cpp:311-317 | succeeds exactly when the book exists with enough stock, and then lowers the stock by exactly the quantity; otherwise nothing changes |
| `BookStore.BookManager.SearchBooks` | main.cpp:319-362 | the result is the matching books in ISBN order (see `SearchMembers`, `SearchSorted`) |
| `FinanceStore.WindowStart` | main.cpp:409-413 | the start index of the last-`count` window always lies in the ledger |
| `FinanceStore.WindowShape` | main.cpp:407-422 | -1 selects the whole ledger, 0..size selects exactly the last `count` entries, a count too large selects all, any other negative count selects none |
| `FinanceStore.IncomePlusExpenditure` | main.cpp:413-419 | each entry counts exactly once, as income or as expenditure |
| `FinanceStore.AppendOne` | main.cpp:399-405 | appending an entry adds its amount to the total on its own side only |
| `FinanceStore.LatestWindow` | main.cpp:399-422 | the window of the last entry alone reports that entry's amount on its side and 0 on the other |
| `FinanceStore.AppendAllTime` | main.cpp:399-422 | appending an entry raises the all-time total on its side by its amount |
| `FinanceStore.FinanceManager.constructor` | main.cpp:395-397 | starts from the stored ledger |
| `FinanceStore.FinanceManager.AddTransaction` | main.cpp:399-405 | appends exactly one entry; earlier entries are untouched |
| `FinanceStore.FinanceManager.GetFinance` | main.cpp:407-422 | returns the income and expenditure totals over the last `count` entries, or over all of them for -1 |
| `FinanceStore.FinanceManager.TransactionCount` | main.cpp:424-426 | the number of ledger entries |
| `Session.Unquote` | main.cpp:686-696 | yields the text strictly between the quotes after the key, and fails exactly when the quotes are missing or nothing fits between them |
| `Session.ImportChecks` | main.cpp:933-964 | an accepted restocking order has a positive quantity and a positive cost |
| `Session.Int32Of` | main.cpp:305 | the conversion to `int` lands in the signed 32-bit range and agrees with its input modulo 2^32 |
| `Session.CurrentPrivilege` | main.cpp:440-443 | 0 when nobody is logged in; a positive privilege is that of the top user's existing account |
| `Session.CurrentUser` | main.cpp:445-448 | empty when nobody is logged in, otherwise the last entry of the login stack |
| `Session.Su` | main.cpp:474-510 | either refused with no change, or the user exists and is pushed onto the stack and added to the logged-in set, with nothing else changed |
| `Session.Logout` | main.cpp:512-533 | refused exactly when nobody is logged in. Otherwise the top entry is popped and its user's selection dropped; the accounts, books and ledger are unchanged |
| `Session.Register` | main.cpp:535-553 | either refused with no change, or exactly one customer account is added under a new user ID and nothing else changes |
| `Session.Passwd` | main.cpp:555-594 | either refused with no change, or a logged-in user changed an existing account's password to the last argument and nothing else changes |
| `Session.Useradd` | main.cpp:596-633 | either refused with no change, or exactly one account is added under a new user ID, with a privilege below the caller's, and nothing else changes |
| `Session.Delete` | main.cpp:635-664 | either refused with no change, or privilege 7 removed exactly one existing account that is logged in nowhere, and nothing else changes |
| `Session.ShowFilter` | main.cpp:670-731 | no arguments mean no filter. An accepted argument is a single `-ISBN=`, `-name="…"`, `-author="…"` or `-keyword="…"` whose value passes that field's check |
| `Session.Show` | main.cpp:666-744 | never changes the state; a listing is printed only for a logged-in user with a well-formed filter, anything else is `Invalid` |
| `Session.Buy` | main.cpp:746-787 | either refused with no change, or a logged-in user bought an existing book: the ISBNs are unchanged, one income entry of the printed charge is appended, and nothing outside the books and ledger changes |
| `Session.Select` | main.cpp:789-812 | either refused with no change, or a clerk selected the ISBN: it becomes the current user's selection, the catalog gains at most that key, existing books are unchanged, and nothing else changes |
| `Session.ModifyArg` | main.cpp:837-923 | an accepted argument names a field not used before and marks it used; a changed new ISBN is valid, different from the selected one and not in the catalog |
| `Session.ScanModify` | main.cpp:835-924 | an accepted argument list marks one new field per argument; a new ISBN is valid, different from the selected one and not in the catalog |
| `Session.Modify` | main.cpp:814-931 | either refused with no change, or a clerk with a selection gave at least one argument, and only the books and selections change |
| `Session.Import` | main.cpp:933-969 | succeeds exactly when the checks pass. Then the ISBNs are unchanged, one expenditure entry of the cost is appended, and only the books and ledger change; otherwise nothing changes |
| `Session.ImportAsWritten` | main.cpp:958-967 | the same shape as `Import`, with the quantity passed through a 32-bit `int` |
| `Session.ShowFinance` | main.cpp:971-1006 | never changes the state; anything except `Invalid` requires privilege 7 |
| `Session.Placeholder` | main.cpp:1008-1033 | never changes the state; privilege 7 gets a blank line and anyone else `Invalid` |
| `Session.Process` | main.cpp:1036-1092 | a blank line is silently ignored; a line answered with `Invalid`, and `quit`/`exit`, leave the whole state unchanged |
| `SessionProperties.FreshStartInv` | main.cpp:178-189 | a fresh start satisfies the invariant, with nobody logged in |
| `SessionProperties.StackSetSnoc` | main.cpp:505-507 | pushing a user onto the stack adds exactly that user to the set of logged-in users |
| `SessionProperties.CurrentPrivilegeRange` | main.cpp:440-443 | the current privilege is 0 exactly when nobody is logged in, and otherwise 1, 3 or 7 |
| `SessionProperties.SuKeepsInv` | main.cpp:474-510 | `su` keeps the invariant |
| `SessionProperties.LogoutKeepsInv` | main.cpp:512-533 | `logout` keeps the invariant: the logged-in set stays the set of users on the stack |
| `SessionProperties.RegisterKeepsInv` | main.cpp:535-553 | `register` keeps the invariant |
| `SessionProperties.PasswdKeepsInv` | main.cpp:555-594 | `passwd` keeps the invariant |
| `SessionProperties.UseraddKeepsInv` | main.cpp:596-633 | `useradd` keeps the invariant: only privileges 1, 3 and 7 are created |
| `SessionProperties.DeleteKeepsInv` | main.cpp:635-664 | `delete` keeps the invariant: no stack entry loses its account |
| `SessionProperties.SelectKeepsInv` | main.cpp:789-812 | `select` keeps the invariant |
| `SessionProperties.BuyKeepsInv` | main.cpp:746-787 | `buy` keeps the invariant: stock stays non-negative |
| `SessionProperties.ImportKeepsInv` | main.cpp:933-969 | the corrected `import` keeps the invariant |
| `SessionProperties.ScanModifyFits` | main.cpp:835-924 | every edit the `modify` argument scan accepts fits the record fields, and a new ISBN is free |
| `SessionProperties.ModifyKeepsInv` | main.cpp:814-931 | `modify` keeps the invariant: the catalog stays keyed by ISBN with fields within bounds |
| `SessionProperties.ProcessKeepsInv` | main.cpp:1036-1092 | every input line keeps the invariant |
| `SessionProperties.SuWithPassword` | main.cpp:474-510 | `su` with a password succeeds exactly for an existing account and the right password, at any current privilege |
| `SessionProperties.SuWithoutPassword` | main.cpp:474-510 | `su` without a password succeeds exactly for an existing account whose privilege is strictly below the current one |
| `SessionProperties.SuPushesOne` | main.cpp:474-510 | a successful `su` pushes exactly that user and makes them current; a failed one changes nothing |
| `SessionProperties.LogoutPopsOne` | main.cpp:512-533 | `logout` is refused with nobody logged in. Otherwise it pops exactly the top entry, returns to the previous user, drops the popped user's selection, and makes the logged-in set the set of users left on the stack |
| `SessionProperties.SuThenLogout` | main.cpp:474-533 | a successful `su` followed by `logout` restores the state, apart from that user's selection |
| `SessionProperties.RegisterOnce` | main.cpp:535-553 | a successful `register` creates exactly one customer account under a new user ID; registering the same ID again is refused |
| `SessionProperties.UseraddBounds` | main.cpp:596-633 | `useradd` succeeds only for a clerk or above, and creates privilege 1, 3 or 7 strictly below the caller's |
| `SessionProperties.UseraddSucceeds` | main.cpp:596-633 | `useradd` by a clerk or above, with valid fields, a new user ID and a privilege of 1, 3 or 7 below the caller's, always creates exactly that account |
| `SessionProperties.RootCreatesClerk` | main.cpp:596-633 | `root` can create a clerk account of privilege 3 |
| `SessionProperties.ClerkCreatesCustomers` | main.cpp:621-625 | a clerk can only create customer accounts |
| `SessionProperties.DeleteSucceeds` | main.cpp:635-664 | `delete` by privilege 7 of an existing account that is logged in nowhere always succeeds and removes exactly that account |
| `SessionProperties.DeleteLoggedInRefused` | main.cpp:658-661 | an account logged in anywhere on the stack cannot be deleted |
| `SessionProperties.DeleteRemovesOne` | main.cpp:635-664 | a successful `delete` removes exactly that account, which existed and is on no stack entry |
| `SessionProperties.PasswdRules` | main.cpp:555-594 | without the current password only privilege 7 can change a password; with the right current password any logged-in user can; either way the IDs and passwords must be valid and the account must exist |
| `SessionProperties.BuyBookkeeping` | main.cpp:746-787 | a successful `buy` lowers the stock by exactly the quantity, appends exactly one income entry of price times quantity, and prints that amount; a refused one changes nothing |
| `SessionProperties.BuyThenFinance` | main.cpp:746-787 | after a purchase, the finance totals over the last entry are its charge as income and nothing spent, and the all-time income rises by it |
| `SessionProperties.SelectCreates` | main.cpp:789-812 | a successful `select` makes the ISBN the current user's selection, creating an empty record only when the ISBN is new |
| `SessionProperties.ImportRestocks` | main.cpp:933-969 | a successful `import` adds exactly the quantity to the selected book and appends one expenditure entry of the cost; a refused one changes nothing |
| `SessionProperties.ScanModifyRepeat` | main.cpp:835-913 | an accepted `modify` argument list names each field at most once |
| `SessionProperties.ModifyRepeatRefused` | main.cpp:841-913 | naming a field twice rejects the whole `modify` command |
| `SessionProperties.ModifyApplies` | main.cpp:814-931 | a successful `modify` files the book under its new ISBN (or the old one), with the record's ISBN equal to its key and only the given name, author, keyword and price replaced. Its stock is unchanged, the old key is gone when the ISBN changed, and the selection follows the new ISBN |
| `SessionProperties.ShowListing` | main.cpp:666-744 | `show` changes nothing, and lists the matching catalog books, each once, in strictly ascending ISBN order |
| `SessionProperties.ShowEverything` | main.cpp:666-744 | a bare `show` by a logged-in user lists the whole catalog in ISBN order |
| `SessionProperties.ShowFinanceWindow` | main.cpp:971-1006 | `show finance count` prints a blank line for 0, is refused beyond the ledger length, and otherwise reports the totals over the last `count` entries |
| `SessionProperties.ImportAgreesBelowInt32` | main.cpp:958-967 | below 2^31 the source's import and the corrected one agree |
| `SessionProperties.DigitsOf2147483648` | main.cpp:958 | `2147483648` is a valid quantity string worth 2^31 |
| `SessionProperties.ImportAsWrittenNegativeStock` | main.cpp:958-967 | as written, `import 2147483648 1` passes every check but adds -2^31 to the stock, breaking the non-negative stock invariant |
| `SessionProperties.ImportFullQuantity` | main.cpp:958-967 | the corrected import adds the full 2^31 on the same input and keeps the invariant |
| `Bookstore.BookstoreSystem.constructor` | main.cpp:428-438 | the system starts with the stored records (plus `root`), nobody logged in and nothing selected, and so satisfies the invariant |
| `Bookstore.BookstoreSystem.CurrentPrivilege` | main.cpp:440-443 | the privilege of the top of the stack, 0 when the stack is empty |
| `Bookstore.BookstoreSystem.CurrentUser` | main.cpp:445-448 | the user ID on top of the stack, empty when nobody is logged in |
| `Bookstore.BookstoreSystem.Su` | main.cpp:474-510 | keeps the invariant and produces `Session.Su`'s state and output (see `SuWithPassword`, `SuPushesOne`) |
| `Bookstore.BookstoreSystem.Logout` | main.cpp:512-533 | keeps the invariant and produces `Session.Logout`'s state and output (see `LogoutPopsOne`) |
| `Bookstore.BookstoreSystem.Register` | main.cpp:535-553 | keeps the invariant and produces `Session.Register`'s state and output (see `RegisterOnce`) |
| `Bookstore.BookstoreSystem.Passwd` | main.cpp:555-594 | keeps the invariant and produces `Session.Passwd`'s state and output (see `PasswdRules`) |
| `Bookstore.BookstoreSystem.Useradd` | main.cpp:596-633 | keeps the invariant and produces `Session.Useradd`'s state and output (see `UseraddBounds`) |
| `Bookstore.BookstoreSystem.Delete` | main.cpp:635-664 | keeps the invariant and produces `Session.Delete`'s state and output (see `DeleteRemovesOne`) |
| `Bookstore.BookstoreSystem.ParseShowArgs` | main.cpp:670-731 | computes the search filter of the `show` arguments, or none for a malformed argument |
| `Bookstore.BookstoreSystem.ParseQuoted` | main.cpp:686-730 | reads a quoted filter value. It refuses an empty or invalid name and, for a keyword, one holding `\|` |
| `Bookstore.BookstoreSystem.Show` | main.cpp:666-744 | leaves the state unchanged and produces `Session.Show`'s output (see `ShowListing`) |
| `Bookstore.BookstoreSystem.Buy` | main.cpp:746-787 | keeps the invariant and produces `Session.Buy`'s state and output (see `BuyBookkeeping`) |
| `Bookstore.BookstoreSystem.Select` | main.cpp:789-812 | keeps the invariant and produces `Session.Select`'s state and output (see `SelectCreates`) |
| `Bookstore.BookstoreSystem.ModifyArgument` | main.cpp:837-923 | scanning one `modify` argument equals one step of the specified argument scan |
| `Bookstore.BookstoreSystem.Modify` | main.cpp:814-931 | keeps the invariant and produces `Session.Modify`'s state and output (see `ModifyApplies`) |
| `Bookstore.BookstoreSystem.Import` | main.cpp:933-969 | keeps the invariant and produces the corrected `Session.Import`'s state and output (see `ImportRestocks`) |
| `Bookstore.BookstoreSystem.ShowFinance` | main.cpp:971-1006 | leaves the state unchanged and produces `Session.ShowFinance`'s output (see `ShowFinanceWindow`) |
| `Bookstore.BookstoreSystem.Placeholder` | main.cpp:1008-1033 | leaves the state unchanged; privilege 7 gets a blank line and anyone else `Invalid` |
| `Bookstore.BookstoreSystem.ProcessCommand` | main.cpp:1036-1092 | keeps the invariant and produces `Session.Process`'s state and output for the whole line (see `ProcessKeepsInv`) |

## Left out

- Persistence: the load and save of the account, book and finance files is not modelled. The constructors take the loaded records as parameters, and the saves are I/O.
- Fixed-size `char` fields, `strcpy` and `memset`: records hold strings. The field lengths are kept in `Session.Inv` instead.
- Output: printing and `fixed << setprecision(2)` formatting are not modelled. Each command's printable result is an `Output` value.
- Floating point: `stod` and `double` arithmetic are not modelled. Prices, charges and totals are exact whole cents, which a valid price always denotes.
- `SessionProperties.ShowFinanceWindow`: does not model `stoi` throwing on a 10-digit count above 2^31-1, which ends the program. The model reads the count as an unbounded number. It answers such a count `Invalid` when it exceeds the ledger length, and reports the totals otherwise.
- `BookStore.AdjustStock`: stock is an unbounded integer, so a 32-bit overflow from repeated imports is not modelled.
- `BookStore.BookManager.SearchBooks`: the final `sort` by ISBN is not modelled as a separate step. The traversal already visits keys in ascending order, and `BookStore.SearchSorted` proves the result strictly ascending by ISBN. `IsbnOrder.SortedKeysUnique` is the key step of the argument that a sort would change nothing, but no lemma states that about the list of books itself.
- The `quit`/`exit` command is modelled as an `Exit` output. The process exit and the line-reading loop around `processCommand` are left out.
- `log` and `report`: these print placeholder text. The model keeps their privilege check and their output as a blank line.
- Character encoding and locale: characters are Dafny `char`s, and no signed-`char` or locale behaviour is modelled.

## Findings

| source | as written | input that shows it | evidently intended | confidence | as-written member | corrected member |
|---|---|---|---|---|---|---|
| main.cpp:958-967 | `cmdImport` parses the quantity into a `long long` and checks it is positive, then passes it to `importBook`, which takes an `int`. A 10-digit quantity of 2^31 or more wraps to a negative or smaller number. | with `root` logged in and a book selected, `import 2147483648 1` passes the checks, records 1.00 of expenditure, and lowers the stock by 2^31 | the stock rises by the quantity that was checked | not executed | `Session.ImportAsWritten`, `SessionProperties.ImportAsWrittenNegativeStock` | `Session.Import`, `SessionProperties.ImportFullQuantity` |
