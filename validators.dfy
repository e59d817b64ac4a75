/**
 * The field validators of the bookstore: length bounds and character classes for
 * identifiers, names and ISBNs, the `|`-separated keyword syntax, and the syntax of
 * quantities and prices. Each validator is a specification predicate together with
 * the character-by-character scan that decides it. Character classes are ASCII.
 */
module Validators {

  // ---------------------------------------------------------------------------
  // Character classes
  // ---------------------------------------------------------------------------

  predicate IsDigit(c: char) {
    '0' <= c <= '9'
  }

  predicate IsAlnum(c: char) {
    IsDigit(c) || 'A' <= c <= 'Z' || 'a' <= c <= 'z'
  }

  /** A printable ASCII character (codes 32 to 126), optionally excluding the double quote. */
  predicate IsValidChar(c: char, allowQuote: bool) {
    ' ' <= c <= '~' && (allowQuote || c != '"')
  }

  /** The character classes the length-bounded validators accept. */
  datatype CharClass = IdChar | Printable | PrintableNoQuote | Digit

  predicate InClass(c: char, cls: CharClass) {
    match cls
    case IdChar => IsAlnum(c) || c == '_'
    case Printable => IsValidChar(c, true)
    case PrintableNoQuote => IsValidChar(c, false)
    case Digit => IsDigit(c)
  }

  /** `s` is non-empty, at most `maxLen` long, and every character is in `cls`. */
  predicate BoundedOver(s: string, maxLen: nat, cls: CharClass) {
    1 <= |s| <= maxLen && forall i :: 0 <= i < |s| ==> InClass(s[i], cls)
  }

  /** The scan shared by the length-bounded validators. */
  method ScanBounded(s: string, maxLen: nat, cls: CharClass) returns (ok: bool)
    ensures ok <==> BoundedOver(s, maxLen, cls)
  {
    if |s| == 0 || |s| > maxLen {
      return false;
    }
    var i := 0;
    while i < |s|
      invariant 0 <= i <= |s|
      invariant forall j :: 0 <= j < i ==> InClass(s[j], cls)
    {
      if !InClass(s[i], cls) {
        return false;
      }
      i := i + 1;
    }
    return true;
  }

  // ---------------------------------------------------------------------------
  // Length-bounded validators
  // ---------------------------------------------------------------------------

  predicate ValidUserId(s: string) {
    BoundedOver(s, 30, IdChar)
  }

  /** Passwords follow the user-ID syntax. */
  predicate ValidPassword(s: string) {
    ValidUserId(s)
  }

  predicate ValidUsername(s: string) {
    BoundedOver(s, 30, Printable)
  }

  predicate ValidIsbn(s: string) {
    BoundedOver(s, 20, Printable)
  }

  /** Used for book names, authors and single keywords. */
  predicate ValidBookName(s: string) {
    BoundedOver(s, 60, PrintableNoQuote)
  }

  predicate ValidQuantity(s: string) {
    BoundedOver(s, 10, Digit)
  }

  method IsValidUserId(s: string) returns (ok: bool)
    ensures ok <==> (1 <= |s| <= 30 && forall i :: 0 <= i < |s| ==> IsAlnum(s[i]) || s[i] == '_')
    ensures ok == ValidUserId(s)
  {
    ok := ScanBounded(s, 30, IdChar);
  }

  method IsValidPassword(s: string) returns (ok: bool)
    ensures ok == ValidPassword(s)
  {
    ok := IsValidUserId(s);
  }

  method IsValidUsername(s: string) returns (ok: bool)
    ensures ok <==> (1 <= |s| <= 30 && forall i :: 0 <= i < |s| ==> ' ' <= s[i] <= '~')
    ensures ok == ValidUsername(s)
  {
    ok := ScanBounded(s, 30, Printable);
  }

  method IsValidIsbn(s: string) returns (ok: bool)
    ensures ok <==> (1 <= |s| <= 20 && forall i :: 0 <= i < |s| ==> ' ' <= s[i] <= '~')
    ensures ok == ValidIsbn(s)
  {
    ok := ScanBounded(s, 20, Printable);
  }

  method IsValidBookName(s: string) returns (ok: bool)
    ensures ok <==> (1 <= |s| <= 60 && forall i :: 0 <= i < |s| ==> ' ' <= s[i] <= '~' && s[i] != '"')
    ensures ok == ValidBookName(s)
  {
    ok := ScanBounded(s, 60, PrintableNoQuote);
  }

  method IsValidQuantity(s: string) returns (ok: bool)
    ensures ok <==> (1 <= |s| <= 10 && forall i :: 0 <= i < |s| ==> '0' <= s[i] <= '9')
    ensures ok == ValidQuantity(s)
  {
    ok := ScanBounded(s, 10, Digit);
  }

  // ---------------------------------------------------------------------------
  // Keywords: `|`-separated segments
  // ---------------------------------------------------------------------------

  /**
   * The pieces of `s` between `|` separators, empty pieces included:
   * "a|b" gives ["a", "b"], "a||" gives ["a", "", ""], "" gives [""].
   */
  function Segments(s: string): (r: seq<string>)
    ensures |r| >= 1
    decreases |s|
  {
    if s == [] then [""]
    else
      var init := Segments(s[..|s| - 1]);
      var c := s[|s| - 1];
      if c == '|' then init + [""]
      else init[..|init| - 1] + [init[|init| - 1] + [c]]
  }

  /** The pieces joined back together with `|` between consecutive ones. */
  function JoinSegments(parts: seq<string>): string
    decreases |parts|
  {
    if |parts| == 0 then ""
    else if |parts| == 1 then parts[0]
    else JoinSegments(parts[..|parts| - 1]) + "|" + parts[|parts| - 1]
  }

  predicate NoBar(t: string) {
    forall i :: 0 <= i < |t| ==> t[i] != '|'
  }

  /** Splitting on `|` is undone by joining with `|`, and no piece contains `|`. */
  lemma SegmentsJoin(s: string)
    ensures JoinSegments(Segments(s)) == s
    ensures forall j :: 0 <= j < |Segments(s)| ==> NoBar(Segments(s)[j])
  {
    SegmentsRejoin(s);
    SegmentsNoBar(s);
  }

  lemma {:induction false} SegmentsRejoin(s: string)
    ensures JoinSegments(Segments(s)) == s
    decreases |s|
  {
    if s != [] {
      var p := s[..|s| - 1];
      var c := s[|s| - 1];
      assert s == p + [c];
      SegmentsRejoin(p);
      if c == '|' {
        JoinSnocEmpty(Segments(p));
      } else {
        JoinSnocChar(Segments(p), c);
      }
    }
  }

  /** Opening a new, empty last piece adds one `|` to the joined string. */
  lemma JoinSnocEmpty(parts: seq<string>)
    requires |parts| >= 1
    ensures JoinSegments(parts + [""]) == JoinSegments(parts) + "|"
  {
    assert (parts + [""])[..|parts|] == parts;
  }

  /** Extending the last piece by `c` extends the joined string by `c`. */
  lemma JoinSnocChar(parts: seq<string>, c: char)
    requires |parts| >= 1
    ensures JoinSegments(parts[..|parts| - 1] + [parts[|parts| - 1] + [c]]) == JoinSegments(parts) + [c]
  {
    var last := parts[|parts| - 1];
    var r := parts[..|parts| - 1] + [last + [c]];
    if |parts| > 1 {
      var front := JoinSegments(parts[..|parts| - 1]);
      assert r[..|r| - 1] == parts[..|parts| - 1];
      assert front + "|" + (last + [c]) == (front + "|" + last) + [c];
    }
  }

  lemma {:induction false} SegmentsNoBar(s: string)
    ensures forall j :: 0 <= j < |Segments(s)| ==> NoBar(Segments(s)[j])
    decreases |s|
  {
    if s != [] {
      var p := s[..|s| - 1];
      var c := s[|s| - 1];
      SegmentsNoBar(p);
      var init := Segments(p);
      if c == '|' {
        assert Segments(s) == init + [""];
      } else {
        var last := init[|init| - 1];
        assert Segments(s) == init[..|init| - 1] + [last + [c]];
        assert NoBar(last + [c]) by {
          assert NoBar(last);
        }
      }
    }
  }

  /** Extending a string keeps every piece but the last of its prefix, at the same position. */
  lemma {:induction false} SegmentsPrefix(s: string, k: nat)
    requires k <= |s|
    ensures |Segments(s[..k])| <= |Segments(s)|
    ensures forall j :: 0 <= j < |Segments(s[..k])| - 1 ==> Segments(s[..k])[j] == Segments(s)[j]
    decreases |s| - k
  {
    if k < |s| {
      SegmentsPrefix(s, k + 1);
      var p := s[..k + 1];
      assert p[..|p| - 1] == s[..k];
    } else {
      assert s[..k] == s;
    }
  }

  /** One more character either starts a new piece or extends the last one. */
  lemma SegmentsSnoc(p: string, c: char, parts: seq<string>, part: string)
    requires parts + [part] == Segments(p)
    ensures c == '|' ==> Segments(p + [c]) == parts + [part] + [""]
    ensures c != '|' ==> Segments(p + [c]) == parts + [part + [c]]
  {
    assert (p + [c])[..|p|] == p;
    assert (parts + [part])[..|parts|] == parts;
  }

  predicate Distinct(xs: seq<string>) {
    forall i, j :: 0 <= i < j < |xs| ==> xs[i] != xs[j]
  }

  /**
   * `s` is a keyword string: 1 to 60 characters, every character other than `|`
   * printable and not a quote, every `|`-segment non-empty, and the segments pairwise distinct.
   */
  predicate ValidKeyword(s: string) {
    && 1 <= |s| <= 60
    && (forall i :: 0 <= i < |s| ==> s[i] == '|' || IsValidChar(s[i], false))
    && (forall j :: 0 <= j < |Segments(s)| ==> Segments(s)[j] != "")
    && Distinct(Segments(s))
  }

  function SetOf(xs: seq<string>): set<string> {
    set x | x in xs
  }

  lemma {:induction false} SetOfSize(xs: seq<string>)
    ensures |SetOf(xs)| <= |xs|
    ensures |SetOf(xs)| == |xs| <==> Distinct(xs)
    decreases |xs|
  {
    if xs != [] {
      var p := xs[..|xs| - 1];
      var x := xs[|xs| - 1];
      assert xs == p + [x];
      SetOfSize(p);
      assert SetOf(xs) == SetOf(p) + {x};
      if x in p {
        var k :| 0 <= k < |p| && p[k] == x;
        assert xs[k] == xs[|xs| - 1];
        assert SetOf(xs) == SetOf(p);
      } else {
        assert x !in SetOf(p);
        if Distinct(p) {
          assert Distinct(xs);
        } else {
          assert !Distinct(xs);
        }
      }
    }
  }

  /** An empty piece before a separator makes the whole string invalid. */
  lemma EmptyPieceInvalid(s: string, i: nat, parts: seq<string>)
    requires i < |s| && s[i] == '|'
    requires parts + [""] == Segments(s[..i])
    ensures !ValidKeyword(s)
  {
    assert s[..i + 1] == s[..i] + [s[i]];
    SegmentsSnoc(s[..i], s[i], parts, "");
    SegmentsPrefix(s, i + 1);
    assert Segments(s)[|parts|] == Segments(s[..i + 1])[|parts|] == "";
  }

  /** Once every piece is known to be non-empty with valid characters, only distinctness is left. */
  lemma KeywordByCount(s: string, parts: seq<string>)
    requires 1 <= |s| <= 60 && parts == Segments(s)
    requires forall j :: 0 <= j < |parts| ==> parts[j] != ""
    requires forall j :: 0 <= j < |s| ==> s[j] == '|' || IsValidChar(s[j], false)
    ensures ValidKeyword(s) <==> |SetOf(parts)| == |parts|
  {
    SetOfSize(parts);
  }

  /** One step of the keyword scan over `s[i]`, in terms of the segments of the prefix read so far. */
  lemma KeywordScanStep(s: string, i: nat, parts: seq<string>, part: string)
    requires i < |s| && parts + [part] == Segments(s[..i])
    ensures s[i] == '|' ==> (parts + [part]) + [""] == Segments(s[..i + 1])
    ensures s[i] != '|' ==> parts + [part + [s[i]]] == Segments(s[..i + 1])
  {
    assert s[..i + 1] == s[..i] + [s[i]];
    SegmentsSnoc(s[..i], s[i], parts, part);
  }

  /** A character that is neither `|` nor a printable non-quote makes the whole string invalid. */
  lemma BadKeywordCharInvalid(s: string, i: nat)
    requires i < |s| && s[i] != '|' && !IsValidChar(s[i], false)
    ensures !ValidKeyword(s)
  {
  }

  /** A string whose last segment is empty (it ends with `|`) is not a keyword. */
  lemma TrailingBarInvalid(s: string, parts: seq<string>)
    requires parts + [""] == Segments(s)
    ensures !ValidKeyword(s)
  {
    assert Segments(s)[|parts|] == "";
  }

  /** The scan of the keyword validator: collect the pieces, then compare the count of distinct ones. */
  method IsValidKeyword(s: string) returns (ok: bool)
    ensures ok == ValidKeyword(s)
  {
    if |s| == 0 || |s| > 60 {
      return false;
    }
    var parts: seq<string> := [];
    var part: string := "";
    var i := 0;
    while i < |s|
      invariant 0 <= i <= |s|
      invariant parts + [part] == Segments(s[..i])
      invariant forall j :: 0 <= j < |parts| ==> parts[j] != ""
      invariant forall j :: 0 <= j < i ==> s[j] == '|' || IsValidChar(s[j], false)
    {
      var c := s[i];
      KeywordScanStep(s, i, parts, part);
      if c == '|' {
        if part == "" {
          EmptyPieceInvalid(s, i, parts);
          return false;
        }
        parts := parts + [part];
        part := "";
      } else {
        if !IsValidChar(c, false) {
          BadKeywordCharInvalid(s, i);
          return false;
        }
        part := part + [c];
      }
      i := i + 1;
    }
    assert s[..i] == s;
    if part == "" {
      TrailingBarInvalid(s, parts);
      return false;
    }
    parts := parts + [part];
    KeywordByCount(s, parts);
    var unique := SetOf(parts);
    ok := |unique| == |parts|;
  }

  // ---------------------------------------------------------------------------
  // Numbers: quantities and prices
  // ---------------------------------------------------------------------------

  predicate AllDigits(t: string) {
    forall i :: 0 <= i < |t| ==> IsDigit(t[i])
  }

  lemma AllDigitsSnoc(t: string, c: char)
    requires AllDigits(t) && IsDigit(c)
    ensures AllDigits(t + [c])
  {
  }

  function DigitOf(c: char): nat
    requires IsDigit(c)
  {
    c as int - '0' as int
  }

  /** The value of a decimal digit string, most significant digit first ("" is 0). */
  function DigitsValue(t: string): nat
    requires AllDigits(t)
    decreases |t|
  {
    if t == [] then 0 else DigitsValue(t[..|t| - 1]) * 10 + DigitOf(t[|t| - 1])
  }

  /** Appending a digit multiplies the value by ten and adds the digit. */
  lemma DigitsSnocValue(t: string, c: char)
    requires AllDigits(t) && IsDigit(c)
    ensures AllDigits(t + [c])
    ensures DigitsValue(t + [c]) == DigitsValue(t) * 10 + DigitOf(c)
  {
    assert (t + [c])[..|t|] == t;
  }

  function Pow10(n: nat): nat {
    if n == 0 then 1 else 10 * Pow10(n - 1)
  }

  /** A digit string of length n denotes less than 10^n; so a valid quantity is below 10^10. */
  lemma {:induction false} DigitsValueBound(t: string)
    requires AllDigits(t)
    ensures DigitsValue(t) < Pow10(|t|)
    decreases |t|
  {
    if t != [] {
      DigitsValueBound(t[..|t| - 1]);
    }
  }

  /** A digit string denotes a positive number exactly when it has a digit other than '0'. */
  lemma {:induction false} DigitsValuePositive(t: string)
    requires AllDigits(t)
    ensures DigitsValue(t) > 0 <==> exists i :: 0 <= i < |t| && t[i] != '0'
    decreases |t|
  {
    if t != [] {
      var p := t[..|t| - 1];
      DigitsValuePositive(p);
      if exists i :: 0 <= i < |p| && p[i] != '0' {
        var i :| 0 <= i < |p| && p[i] != '0';
        assert t[i] != '0';
      }
      if exists i :: 0 <= i < |t| && t[i] != '0' {
        var i :| 0 <= i < |t| && t[i] != '0';
        if i < |p| {
          assert p[i] != '0';
        }
      }
    }
  }

  /**
   * `s` is a price: 1 to 13 characters, digits and at most one '.', at least one digit
   * before the dot and at most two after it.
   */
  predicate ValidPrice(s: string) {
    && 1 <= |s| <= 13
    && (|| AllDigits(s)
        || exists d :: 0 < d < |s| && s[d] == '.' && AllDigits(s[..d]) && AllDigits(s[d + 1..]) && |s| - d - 1 <= 2)
  }

  /** The scan of the price validator: count the digits before and after the (single) dot. */
  method IsValidPrice(s: string) returns (ok: bool)
    ensures ok == ValidPrice(s)
  {
    if |s| == 0 || |s| > 13 {
      return false;
    }
    var hasDot := false;
    var beforeDot, afterDot := 0, 0;
    ghost var dotAt := 0;
    var i := 0;
    while i < |s|
      invariant 0 <= i <= |s|
      invariant !hasDot ==> AllDigits(s[..i]) && beforeDot == i && afterDot == 0
      invariant hasDot ==> && 0 <= dotAt < i && s[dotAt] == '.'
                           && AllDigits(s[..dotAt]) && AllDigits(s[dotAt + 1..i])
                           && beforeDot == dotAt && afterDot == i - dotAt - 1
    {
      var c := s[i];
      assert s[..i + 1] == s[..i] + [c];
      assert hasDot ==> s[dotAt + 1..i + 1] == s[dotAt + 1..i] + [c];
      if IsDigit(c) {
        if hasDot {
          AllDigitsSnoc(s[dotAt + 1..i], c);
        } else {
          AllDigitsSnoc(s[..i], c);
        }
      }
      if c == '.' {
        if hasDot {
          NotPriceTwoDots(s, dotAt, i);
          return false;
        }
        hasDot := true;
        dotAt := i;
        assert AllDigits(s[dotAt + 1..i + 1]);
      } else if IsDigit(c) {
        if hasDot {
          afterDot := afterDot + 1;
        } else {
          beforeDot := beforeDot + 1;
        }
      } else {
        NotPriceBadChar(s, i);
        return false;
      }
      i := i + 1;
    }
    assert s[..i] == s;
    if beforeDot == 0 {
      if hasDot {
        NotPriceLeadingDot(s);
      }
      return false;
    }
    if hasDot {
      assert !AllDigits(s) by {
        assert !IsDigit(s[dotAt]);
      }
      if afterDot > 2 {
        NotPriceLongFraction(s, dotAt);
      }
    }
    ok := !hasDot || afterDot <= 2;
  }

  lemma NotPriceTwoDots(s: string, a: int, b: int)
    requires 0 <= a < b < |s| && s[a] == '.' && s[b] == '.'
    ensures !ValidPrice(s)
  {
    assert !IsDigit(s[a]);
    forall d | 0 < d < |s| && s[d] == '.'
      ensures !(AllDigits(s[..d]) && AllDigits(s[d + 1..]))
    {
      if d < b {
        assert s[d + 1..][b - d - 1] == s[b];
      } else {
        assert s[..d][a] == s[a];
      }
    }
  }

  lemma NotPriceBadChar(s: string, i: int)
    requires 0 <= i < |s| && s[i] != '.' && !IsDigit(s[i])
    ensures !ValidPrice(s)
  {
    forall d | 0 < d < |s| && s[d] == '.'
      ensures !(AllDigits(s[..d]) && AllDigits(s[d + 1..]))
    {
      if i < d {
        assert s[..d][i] == s[i];
      } else {
        assert s[d + 1..][i - d - 1] == s[i];
      }
    }
  }

  lemma NotPriceLeadingDot(s: string)
    requires |s| > 0 && s[0] == '.'
    ensures !ValidPrice(s)
  {
    assert !IsDigit(s[0]);
    forall d | 0 < d < |s| && s[d] == '.'
      ensures !AllDigits(s[..d])
    {
      assert s[..d][0] == s[0];
    }
  }

  lemma NotPriceLongFraction(s: string, a: int)
    requires 0 <= a < |s| && s[a] == '.' && AllDigits(s[..a]) && AllDigits(s[a + 1..]) && |s| - a - 1 > 2
    ensures !ValidPrice(s)
  {
    assert !IsDigit(s[a]);
    forall k | a < k < |s|
      ensures IsDigit(s[k])
    {
      assert s[a + 1..][k - a - 1] == s[k];
    }
    forall d | 0 < d < |s| && s[d] == '.'
      ensures !(AllDigits(s[..d]) && AllDigits(s[d + 1..]) && |s| - d - 1 <= 2)
    {
      if d < a {
        assert s[d + 1..][a - d - 1] == s[a];
      }
    }
  }

  /** In a price with a dot, the first dot is the one the syntax speaks of. */
  lemma PriceDot(s: string)
    requires ValidPrice(s) && !AllDigits(s)
    ensures DotIndex(s) < |s|
    ensures AllDigits(s[..DotIndex(s)]) && AllDigits(s[DotIndex(s) + 1..]) && |s| - DotIndex(s) - 1 <= 2
  {
    var e :| 0 < e < |s| && s[e] == '.' && AllDigits(s[..e]) && AllDigits(s[e + 1..]) && |s| - e - 1 <= 2;
    forall i | 0 <= i < e
      ensures s[i] != '.'
    {
      assert s[..e][i] == s[i];
    }
    assert DotIndex(s) == e;
  }

  /** Position of the first '.', or |s| when there is none. */
  function DotIndex(s: string): (d: nat)
    ensures d <= |s|
    ensures d < |s| ==> s[d] == '.'
    ensures forall i :: 0 <= i < d ==> s[i] != '.'
    decreases |s|
  {
    if s == [] then 0 else if s[0] == '.' then 0 else 1 + DotIndex(s[1..])
  }

  /** The value of a valid price, in cents; at most two fractional digits make this exact. */
  function PriceCents(s: string): nat
    requires ValidPrice(s)
  {
    if AllDigits(s) then DigitsValue(s) * 100
    else
      PriceDot(s);
      var d := DotIndex(s);
      DigitsValue(s[..d]) * 100 + FractionCents(s[d + 1..])
  }

  /** The cents of up to two fractional digits: "5" is 50 cents, "05" is 5. */
  function FractionCents(frac: string): nat
    requires AllDigits(frac) && |frac| <= 2
  {
    if |frac| == 0 then 0
    else if |frac| == 1 then 10 * DigitOf(frac[0])
    else 10 * DigitOf(frac[0]) + DigitOf(frac[1])
  }

  /** Some character of `t` is a digit other than zero. */
  predicate HasNonZeroDigit(t: string) {
    exists i :: 0 <= i < |t| && '1' <= t[i] <= '9'
  }

  lemma NonZeroAroundDot(s: string, d: nat)
    requires d < |s| && s[d] == '.'
    ensures HasNonZeroDigit(s) <==> HasNonZeroDigit(s[..d]) || HasNonZeroDigit(s[d + 1..])
  {
    if HasNonZeroDigit(s) {
      var i :| 0 <= i < |s| && '1' <= s[i] <= '9';
      if i < d {
        assert s[..d][i] == s[i];
      } else {
        assert s[d + 1..][i - d - 1] == s[i];
      }
    }
    if HasNonZeroDigit(s[..d]) {
      var i :| 0 <= i < d && '1' <= s[..d][i] <= '9';
      assert s[i] == s[..d][i];
    }
    if HasNonZeroDigit(s[d + 1..]) {
      var i :| 0 <= i < |s| - d - 1 && '1' <= s[d + 1..][i] <= '9';
      assert s[d + 1 + i] == s[d + 1..][i];
    }
  }

  lemma FractionCentsPositive(frac: string)
    requires AllDigits(frac) && |frac| <= 2
    ensures FractionCents(frac) > 0 <==> HasNonZeroDigit(frac)
  {
    if |frac| == 2 && HasNonZeroDigit(frac) {
      var i :| 0 <= i < |frac| && '1' <= frac[i] <= '9';
      assert i == 0 || i == 1;
    }
  }

  /**
   * A valid price is worth more than nothing exactly when one of its digits is
   * not zero, so a positive-amount check on the parsed price rejects "0", "0.0"
   * and "00.00" and nothing else.
   */
  lemma PriceCentsPositive(s: string)
    requires ValidPrice(s)
    ensures PriceCents(s) > 0 <==> HasNonZeroDigit(s)
  {
    if AllDigits(s) {
      DigitsPositive(s);
    } else {
      PriceDot(s);
      var d := DotIndex(s);
      var whole, frac := s[..d], s[d + 1..];
      assert PriceCents(s) == DigitsValue(whole) * 100 + FractionCents(frac);
      DigitsPositive(whole);
      FractionCentsPositive(frac);
      NonZeroAroundDot(s, d);
      assert PriceCents(s) > 0 <==> DigitsValue(whole) > 0 || FractionCents(frac) > 0;
    }
  }

  /** For a digit string, a positive value means a digit other than `0`. */
  lemma DigitsPositive(t: string)
    requires AllDigits(t)
    ensures DigitsValue(t) > 0 <==> HasNonZeroDigit(t)
  {
    DigitsValuePositive(t);
    if DigitsValue(t) > 0 {
      var i :| 0 <= i < |t| && t[i] != '0';
      assert IsDigit(t[i]);
    }
  }
}
