/**
 * The order in which the catalog is kept and listed: byte-wise lexicographic
 * comparison of ISBN strings (what `strcmp` and the ordered map's key order do on
 * printable ASCII), and the ascending enumeration of a finite set of keys.
 */
module IsbnOrder {

  /** `a` sorts strictly before `b`: a proper prefix, or smaller at the first difference. */
  predicate LexLess(a: string, b: string)
    decreases |a|
  {
    if a == [] then b != []
    else if b == [] then false
    else if a[0] != b[0] then a[0] < b[0]
    else LexLess(a[1..], b[1..])
  }

  lemma {:induction false} LexIrreflexive(a: string)
    ensures !LexLess(a, a)
    decreases |a|
  {
    if a != [] {
      LexIrreflexive(a[1..]);
    }
  }

  lemma {:induction false} LexAsymmetric(a: string, b: string)
    ensures LexLess(a, b) ==> !LexLess(b, a)
    decreases |a|
  {
    if a != [] && b != [] && a[0] == b[0] {
      LexAsymmetric(a[1..], b[1..]);
    }
  }

  lemma {:induction false} LexTransitive(a: string, b: string, c: string)
    ensures LexLess(a, b) && LexLess(b, c) ==> LexLess(a, c)
    decreases |a|
  {
    if a != [] && b != [] && c != [] && a[0] == b[0] && b[0] == c[0] {
      LexTransitive(a[1..], b[1..], c[1..]);
    }
  }

  lemma {:induction false} LexTotal(a: string, b: string)
    ensures a != b ==> LexLess(a, b) || LexLess(b, a)
    decreases |a|
  {
    if a != [] && b != [] && a[0] == b[0] {
      LexTotal(a[1..], b[1..]);
      if a != b {
        assert a == [a[0]] + a[1..] && b == [b[0]] + b[1..];
      }
    }
  }

  /** `k` is the smallest element of `keys`. */
  predicate IsLeast(k: string, keys: set<string>) {
    k in keys && forall j :: j in keys && j != k ==> LexLess(k, j)
  }

  lemma {:induction false} LeastExists(keys: set<string>)
    requires keys != {}
    ensures exists k :: IsLeast(k, keys)
    decreases keys
  {
    var x :| x in keys;
    if keys != {x} {
      var rest := keys - {x};
      LeastExists(rest);
      var m :| IsLeast(m, rest);
      LexTotal(x, m);
      if LexLess(x, m) {
        forall j | j in keys && j != x
          ensures LexLess(x, j)
        {
          LexTransitive(x, m, j);
        }
        assert IsLeast(x, keys);
      } else {
        assert IsLeast(m, keys);
      }
    } else {
      assert IsLeast(x, keys);
    }
  }

  lemma LeastUnique(a: string, b: string, keys: set<string>)
    requires IsLeast(a, keys) && IsLeast(b, keys)
    ensures a == b
  {
    LexAsymmetric(a, b);
  }

  ghost function Least(keys: set<string>): (k: string)
    requires keys != {}
    ensures IsLeast(k, keys)
  {
    LeastExists(keys);
    var k :| IsLeast(k, keys);
    k
  }

  predicate StrictlySorted(ks: seq<string>) {
    forall i, j :: 0 <= i < j < |ks| ==> LexLess(ks[i], ks[j])
  }

  /** The elements of `keys` in ascending order, each once. */
  ghost function SortedKeys(keys: set<string>): (r: seq<string>)
    ensures StrictlySorted(r)
    ensures forall k :: k in r <==> k in keys
    ensures |r| == |keys|
    decreases keys
  {
    if keys == {} then []
    else
      var k := Least(keys);
      [k] + SortedKeys(keys - {k})
  }

  /** The ascending enumeration starts with the least key and goes on with the rest. */
  lemma SortedKeysFirst(k: string, keys: set<string>)
    requires IsLeast(k, keys)
    ensures SortedKeys(keys) == [k] + SortedKeys(keys - {k})
  {
    LeastUnique(k, Least(keys), keys);
  }

  /** Taking the least key off the remaining ones moves it to the end of the enumerated prefix. */
  lemma SortedKeysStep(prefix: seq<string>, k: string, keys: set<string>)
    requires IsLeast(k, keys)
    ensures (prefix + [k]) + SortedKeys(keys - {k}) == prefix + SortedKeys(keys)
  {
    SortedKeysFirst(k, keys);
  }

  /** The first element of a strictly ascending enumeration is the least element of the set. */
  lemma SortedHeadLeast(ks: seq<string>, keys: set<string>)
    requires StrictlySorted(ks) && keys != {}
    requires forall k :: k in ks <==> k in keys
    ensures |ks| > 0 && IsLeast(ks[0], keys)
  {
    var some :| some in keys;
    assert some in ks;
    forall j | j in keys && j != ks[0]
      ensures LexLess(ks[0], j)
    {
      var m :| 0 <= m < |ks| && ks[m] == j;
      assert m != 0;
    }
  }

  /** Dropping the first element enumerates the rest of the set. */
  lemma SortedTailMembers(ks: seq<string>, keys: set<string>)
    requires StrictlySorted(ks) && |ks| > 0
    requires forall k :: k in ks <==> k in keys
    ensures StrictlySorted(ks[1..])
    ensures forall k :: k in ks[1..] <==> k in keys - {ks[0]}
  {
    var first, tail := ks[0], ks[1..];
    forall k
      ensures k in tail <==> k in keys - {first}
    {
      if k in tail {
        var m :| 0 <= m < |tail| && tail[m] == k;
        assert ks[m + 1] == k;
        LexIrreflexive(first);
      }
      if k in keys - {first} {
        var m :| 0 <= m < |ks| && ks[m] == k;
        assert m != 0 && tail[m - 1] == k;
      }
    }
  }

  /** A strictly ascending enumeration of a set is unique: it is `SortedKeys` of that set. */
  lemma {:induction false} SortedKeysUnique(ks: seq<string>, keys: set<string>)
    requires StrictlySorted(ks)
    requires forall k :: k in ks <==> k in keys
    ensures ks == SortedKeys(keys)
    decreases keys
  {
    if keys != {} {
      SortedHeadLeast(ks, keys);
      var first := ks[0];
      SortedTailMembers(ks, keys);
      SortedKeysUnique(ks[1..], keys - {first});
      SortedKeysFirst(first, keys);
      assert ks == [first] + ks[1..];
    }
  }
}
