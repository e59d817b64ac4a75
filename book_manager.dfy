/**
 * The book catalog: books keyed by ISBN, stock adjustments, in-place modification
 * with re-keying, and search listed in ascending ISBN order.
 */
module BookStore {
  import opened Records
  import opened Validators
  import opened IsbnOrder

  /** Every book is filed under its own ISBN. */
  predicate BooksKeyed(m: map<string, Book>) {
    forall k :: k in m ==> m[k].isbn == k
  }

  // ---------------------------------------------------------------------------
  // Keyword pieces as search sees them
  // ---------------------------------------------------------------------------

  /**
   * The pieces search compares against: the `|`-separated pieces of the stored
   * keyword string, without a final empty piece.
   */
  function KeywordParts(k: string): (r: seq<string>)
    ensures |r| <= |Segments(k)|
    ensures forall j :: 0 <= j < |r| ==> r[j] == Segments(k)[j]
  {
    var segs := Segments(k);
    if segs[|segs| - 1] == "" then segs[..|segs| - 1] else segs
  }

  /** The loop form: collect characters into a piece, close it at each `|` and, if non-empty, at the end. */
  method SplitKeywords(s: string) returns (parts: seq<string>)
    ensures parts == KeywordParts(s)
  {
    parts := [];
    var part: string := "";
    var i := 0;
    while i < |s|
      invariant 0 <= i <= |s|
      invariant parts + [part] == Segments(s[..i])
    {
      var c := s[i];
      assert s[..i + 1] == s[..i] + [c];
      SegmentsSnoc(s[..i], c, parts, part);
      if c == '|' {
        parts := parts + [part];
        part := "";
      } else {
        part := part + [c];
      }
      i := i + 1;
    }
    assert s[..i] == s;
    if part != "" {
      parts := parts + [part];
    } else {
      assert (parts + [part])[..|parts|] == parts;
    }
  }

  /** A non-empty search value is one of the search pieces exactly when it is one of the `|`-segments. */
  lemma KeywordPartsMember(k: string, v: string)
    requires v != ""
    ensures v in KeywordParts(k) <==> v in Segments(k)
  {
    var segs := Segments(k);
    if v in segs {
      var j :| 0 <= j < |segs| && segs[j] == v;
      if segs[|segs| - 1] == "" {
        assert j < |segs| - 1;
        assert KeywordParts(k)[j] == v;
      }
    }
  }

  /** For a keyword string that passed validation the search pieces are exactly its segments. */
  lemma ValidKeywordParts(k: string)
    requires ValidKeyword(k)
    ensures KeywordParts(k) == Segments(k)
  {
    var segs := Segments(k);
    assert segs[|segs| - 1] != "";
  }

  // ---------------------------------------------------------------------------
  // Search
  // ---------------------------------------------------------------------------

  /**
   * Whether a book satisfies a filter: no type matches every book; `ISBN`, `name`
   * and `author` compare exactly; `keyword` looks for the value among the pieces;
   * any other type matches nothing.
   */
  predicate Matches(b: Book, searchType: string, value: string) {
    if searchType == "" then true
    else if searchType == "ISBN" then b.isbn == value
    else if searchType == "name" then b.name == value
    else if searchType == "author" then b.author == value
    else if searchType == "keyword" then value in KeywordParts(b.keyword)
    else false
  }

  /** The books under the keys `ks`, in the order of `ks`, that satisfy the filter. */
  function FilterBooks(ks: seq<string>, books: map<string, Book>, searchType: string, value: string): seq<Book>
    decreases |ks|
  {
    if ks == [] then []
    else
      var init := FilterBooks(ks[..|ks| - 1], books, searchType, value);
      var k := ks[|ks| - 1];
      if k in books && Matches(books[k], searchType, value) then init + [books[k]] else init
  }

  /** What a search returns: the matching books in ascending ISBN order. */
  ghost function SearchSpec(books: map<string, Book>, searchType: string, value: string): seq<Book> {
    FilterBooks(SortedKeys(books.Keys), books, searchType, value)
  }

  lemma FilterSnoc(ks: seq<string>, k: string, books: map<string, Book>, searchType: string, value: string)
    requires k in books
    ensures FilterBooks(ks + [k], books, searchType, value) ==
      FilterBooks(ks, books, searchType, value) + (if Matches(books[k], searchType, value) then [books[k]] else [])
  {
    assert (ks + [k])[..|ks|] == ks;
  }

  lemma {:induction false} FilterMembers(ks: seq<string>, books: map<string, Book>, searchType: string, value: string)
    requires BooksKeyed(books)
    ensures forall i :: 0 <= i < |FilterBooks(ks, books, searchType, value)| ==>
      FilterBooks(ks, books, searchType, value)[i].isbn in ks
    ensures forall b :: b in FilterBooks(ks, books, searchType, value) <==>
      b.isbn in ks && b.isbn in books && books[b.isbn] == b && Matches(b, searchType, value)
    decreases |ks|
  {
    if ks != [] {
      var init := ks[..|ks| - 1];
      FilterMembers(init, books, searchType, value);
      assert ks == init + [ks[|ks| - 1]];
    }
  }

  lemma {:induction false} FilterSorted(ks: seq<string>, books: map<string, Book>, searchType: string, value: string)
    requires BooksKeyed(books) && StrictlySorted(ks)
    ensures forall i, j :: 0 <= i < j < |FilterBooks(ks, books, searchType, value)| ==>
      LexLess(FilterBooks(ks, books, searchType, value)[i].isbn, FilterBooks(ks, books, searchType, value)[j].isbn)
    decreases |ks|
  {
    if ks != [] {
      var init := ks[..|ks| - 1];
      var last := ks[|ks| - 1];
      FilterSorted(init, books, searchType, value);
      FilterMembers(init, books, searchType, value);
      var r0 := FilterBooks(init, books, searchType, value);
      forall i | 0 <= i < |r0|
        ensures LexLess(r0[i].isbn, last)
      {
        var m :| 0 <= m < |init| && init[m] == r0[i].isbn;
        assert ks[m] == init[m];
      }
    }
  }

  lemma {:induction false} FilterAll(ks: seq<string>, books: map<string, Book>, searchType: string, value: string)
    requires forall k :: k in ks ==> k in books && Matches(books[k], searchType, value)
    ensures FilterBooks(ks, books, searchType, value) == seq(|ks|, i requires 0 <= i < |ks| => books[ks[i]])
    decreases |ks|
  {
    if ks != [] {
      var init := ks[..|ks| - 1];
      FilterAll(init, books, searchType, value);
    }
  }

  /** A search lists its books in strictly ascending ISBN order, so no book twice. */
  lemma SearchSorted(books: map<string, Book>, searchType: string, value: string)
    requires BooksKeyed(books)
    ensures forall i, j :: 0 <= i < j < |SearchSpec(books, searchType, value)| ==>
      LexLess(SearchSpec(books, searchType, value)[i].isbn, SearchSpec(books, searchType, value)[j].isbn)
  {
    FilterSorted(SortedKeys(books.Keys), books, searchType, value);
  }

  /** A book is listed exactly when it is in the catalog and satisfies the filter. */
  lemma SearchMembers(books: map<string, Book>, searchType: string, value: string)
    requires BooksKeyed(books)
    ensures forall b :: b in SearchSpec(books, searchType, value) <==>
      b.isbn in books && books[b.isbn] == b && Matches(b, searchType, value)
  {
    FilterMembers(SortedKeys(books.Keys), books, searchType, value);
  }

  /** With no filter every book is listed, each once, in ascending ISBN order. */
  lemma SearchEverything(books: map<string, Book>, value: string)
    ensures SearchSpec(books, "", value) == seq(|books|, i requires 0 <= i < |books| => books[SortedKeys(books.Keys)[i]])
  {
    FilterAll(SortedKeys(books.Keys), books, "", value);
  }

  lemma {:induction false} FilterByIsbn(ks: seq<string>, books: map<string, Book>, isbn: string)
    requires BooksKeyed(books) && StrictlySorted(ks)
    requires forall k :: k in ks ==> k in books
    ensures FilterBooks(ks, books, "ISBN", isbn) == if isbn in ks then [books[isbn]] else []
    decreases |ks|
  {
    if ks != [] {
      var init := ks[..|ks| - 1];
      var last := ks[|ks| - 1];
      assert ks == init + [last];
      FilterByIsbn(init, books, isbn);
      if last == isbn {
        forall m | 0 <= m < |init|
          ensures init[m] != isbn
        {
          LexIrreflexive(last);
          assert LexLess(ks[m], ks[|ks| - 1]);
        }
      }
    }
  }

  /** Searching by ISBN lists the one book with that ISBN, or nothing. */
  lemma SearchByIsbn(books: map<string, Book>, isbn: string)
    requires BooksKeyed(books)
    ensures SearchSpec(books, "ISBN", isbn) == if isbn in books then [books[isbn]] else []
  {
    FilterByIsbn(SortedKeys(books.Keys), books, isbn);
  }

  /** Searching by a non-empty keyword lists the books having it as one of their `|`-segments. */
  lemma SearchByKeyword(books: map<string, Book>, keyword: string)
    requires BooksKeyed(books) && keyword != ""
    ensures forall b :: b in SearchSpec(books, "keyword", keyword) <==>
      b.isbn in books && books[b.isbn] == b && keyword in Segments(b.keyword)
  {
    SearchMembers(books, "keyword", keyword);
    forall b: Book
      ensures Matches(b, "keyword", keyword) <==> keyword in Segments(b.keyword)
    {
      KeywordPartsMember(b.keyword, keyword);
    }
  }

  /** The per-book test of the search loop, with the keyword string split by `SplitKeywords`. */
  method BookMatches(book: Book, searchType: string, value: string) returns (hit: bool)
    ensures hit == Matches(book, searchType, value)
  {
    if searchType == "" {
      hit := true;
    } else if searchType == "ISBN" {
      hit := book.isbn == value;
    } else if searchType == "name" {
      hit := book.name == value;
    } else if searchType == "author" {
      hit := book.author == value;
    } else if searchType == "keyword" {
      var parts := SplitKeywords(book.keyword);
      hit := value in parts;
    } else {
      hit := false;
    }
  }

  // ---------------------------------------------------------------------------
  // Updates
  // ---------------------------------------------------------------------------

  /** The catalog after changing the stock of an existing book by `delta`; an unknown ISBN changes nothing. */
  function AdjustStock(books: map<string, Book>, isbn: string, delta: int): (r: map<string, Book>)
    ensures r.Keys == books.Keys
    ensures isbn in books ==> r[isbn] == books[isbn].(quantity := books[isbn].quantity + delta)
    ensures forall k :: k in books && k != isbn ==> r[k] == books[k]
    ensures BooksKeyed(books) ==> BooksKeyed(r)
  {
    if isbn !in books then books
    else books[isbn := books[isbn].(quantity := books[isbn].quantity + delta)]
  }

  /**
   * The catalog after `modify` on the book under `isbn`: empty strings and a
   * negative price leave a field as it is; a different non-empty `newIsbn` moves
   * the book to that key. An unknown `isbn` changes nothing.
   */
  function ModifiedBooks(books: map<string, Book>, isbn: string, newIsbn: string, name: string,
                         author: string, keyword: string, price: int): (r: map<string, Book>)
    ensures isbn !in books ==> r == books
    ensures BooksKeyed(books) && isbn in books ==>
      var key := if newIsbn != "" then newIsbn else isbn;
      var b := books[isbn];
      && BooksKeyed(r)
      && r.Keys == (books.Keys - {isbn}) + {key}
      && r[key] == Book(key,
                        if name != "" then name else b.name,
                        if author != "" then author else b.author,
                        if keyword != "" then keyword else b.keyword,
                        if price >= 0 then price as nat else b.price,
                        b.quantity)
      && forall k :: k in books && k != isbn && k != key ==> r[k] == books[k]
  {
    if isbn !in books then books
    else
      var b := books[isbn];
      var rekey := newIsbn != "" && newIsbn != isbn;
      var base := if rekey then books - {isbn} else books;
      var updated := b.(isbn := if rekey then newIsbn else b.isbn,
                        name := if name != "" then name else b.name,
                        author := if author != "" then author else b.author,
                        keyword := if keyword != "" then keyword else b.keyword,
                        price := if price >= 0 then price as nat else b.price);
      base[updated.isbn := updated]
  }

  // ---------------------------------------------------------------------------
  // The store
  // ---------------------------------------------------------------------------

  class BookManager {
    var books: map<string, Book>

    ghost predicate Valid()
      reads this
    {
      BooksKeyed(books)
    }

    /** `loaded` is what the book file held (empty on a first start). */
    constructor (loaded: map<string, Book>)
      requires BooksKeyed(loaded)
      ensures Valid() && books == loaded
    {
      books := loaded;
    }

    /** Files an empty record under a new ISBN; an ISBN already present leaves the catalog unchanged. */
    method AddBook(isbn: string) returns (ok: bool)
      requires Valid()
      modifies this
      ensures Valid()
      ensures ok <==> isbn !in old(books)
      ensures books == if ok then old(books)[isbn := EmptyBook(isbn)] else old(books)
    {
      if isbn in books {
        return false;
      }
      books := books[isbn := EmptyBook(isbn)];
      ok := true;
    }

    function Exists(isbn: string): (b: bool)
      reads this
      ensures b <==> isbn in books
    {
      isbn in books
    }

    function GetBook(isbn: string): (r: Option<Book>)
      reads this
      ensures r.Some? <==> isbn in books
      ensures r.Some? ==> r.value == books[isbn]
    {
      if isbn in books then Some(books[isbn]) else None
    }

    method ModifyBook(isbn: string, newIsbn: string, name: string, author: string, keyword: string, price: int)
      requires Valid()
      modifies this
      ensures Valid()
      ensures books == ModifiedBooks(old(books), isbn, newIsbn, name, author, keyword, price)
    {
      if isbn !in books {
        return;
      }
      ghost var target := ModifiedBooks(books, isbn, newIsbn, name, author, keyword, price);
      var b := books[isbn];
      if newIsbn != "" && newIsbn != isbn {
        books := books - {isbn};
        b := b.(isbn := newIsbn);
      }
      if name != "" {
        b := b.(name := name);
      }
      if author != "" {
        b := b.(author := author);
      }
      if keyword != "" {
        b := b.(keyword := keyword);
      }
      if price >= 0 {
        b := b.(price := price as nat);
      }
      books := books[b.isbn := b];
      assert books == target;
    }

    /** Adds `quantity` to the stock of an existing book; an unknown ISBN changes nothing. */
    method ImportBook(isbn: string, quantity: int)
      requires Valid()
      modifies this
      ensures Valid()
      ensures books == AdjustStock(old(books), isbn, quantity)
    {
      if isbn !in books {
        return;
      }
      books := books[isbn := books[isbn].(quantity := books[isbn].quantity + quantity)];
    }

    /** Takes `quantity` copies out of stock when there are enough; otherwise changes nothing. */
    method BuyBook(isbn: string, quantity: int) returns (ok: bool)
      requires Valid()
      modifies this
      ensures Valid()
      ensures ok <==> isbn in old(books) && old(books)[isbn].quantity >= quantity
      ensures books == if ok then AdjustStock(old(books), isbn, -quantity) else old(books)
    {
      if isbn !in books {
        return false;
      }
      if books[isbn].quantity < quantity {
        return false;
      }
      books := books[isbn := books[isbn].(quantity := books[isbn].quantity - quantity)];
      ok := true;
    }

    /** Visits the keys in ascending order, keeping the books that satisfy the filter. */
    method SearchBooks(searchType: string, value: string) returns (result: seq<Book>)
      ensures result == SearchSpec(books, searchType, value)
    {
      result := [];
      var remaining := books.Keys;
      ghost var processed: seq<string> := [];
      while remaining != {}
        invariant remaining <= books.Keys
        invariant processed + SortedKeys(remaining) == SortedKeys(books.Keys)
        invariant result == FilterBooks(processed, books, searchType, value)
        decreases remaining
      {
        assert IsLeast(Least(remaining), remaining);
        var k :| k in remaining && IsLeast(k, remaining);
        var book := books[k];
        var hit := BookMatches(book, searchType, value);
        FilterSnoc(processed, k, books, searchType, value);
        if hit {
          result := result + [book];
        }
        SortedKeysStep(processed, k, remaining);
        processed := processed + [k];
        remaining := remaining - {k};
      }
      assert processed == processed + SortedKeys(remaining);
    }
  }
}
