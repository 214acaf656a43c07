/** `SELECT … ORDER BY key` over a set of keys, under any strict total order. */
module OrderedScan {
  ghost predicate StrictOrder<K(!new)>(before: (K, K) -> bool) {
    && (forall a, b :: before(a, b) ==> !before(b, a))
    && (forall a, b, c :: before(a, b) && before(b, c) ==> before(a, c))
    && (forall a, b :: before(a, b) || before(b, a) || a == b)
  }

  predicate Sorted<K>(before: (K, K) -> bool, s: seq<K>) {
    forall i, j :: 0 <= i < j < |s| ==> before(s[i], s[j])
  }

  /** `s` lists exactly the keys, in order; a strict order leaves no room for duplicates. */
  ghost predicate Lists<K(!new)>(before: (K, K) -> bool, s: seq<K>, keys: set<K>) {
    Sorted(before, s) && forall k :: k in s <==> k in keys
  }

  lemma {:induction false} FirstExists<K(!new)>(before: (K, K) -> bool, keys: set<K>)
    requires StrictOrder(before) && keys != {}
    ensures exists k :: k in keys && forall j :: j in keys && j != k ==> before(k, j)
  {
    var k :| k in keys;
    if keys != {k} {
      FirstExists(before, keys - {k});
      var f :| f in keys - {k} && forall j :: j in keys - {k} && j != f ==> before(f, j);
      var first := if before(k, f) then k else f;
      assert forall j :: j in keys && j != first ==> before(first, j);
    }
  }

  function Scan<K(==, !new)>(before: (K, K) -> bool, keys: set<K>): seq<K>
    requires StrictOrder(before)
  {
    if keys == {} then [] else
    FirstExists(before, keys);
    var k :| k in keys && forall j :: j in keys && j != k ==> before(k, j);
    [k] + Scan(before, keys - {k})
  }

  lemma {:induction false} ScanLists<K(!new)>(before: (K, K) -> bool, keys: set<K>)
    requires StrictOrder(before)
    ensures Lists(before, Scan(before, keys), keys) && |Scan(before, keys)| == |keys|
  {
    if keys != {} {
      FirstExists(before, keys);
      var s := Scan(before, keys);
      ScanLists(before, keys - {s[0]});
    }
  }

  /** A set of keys has one listing only. */
  lemma {:induction false} ListingUnique<K(!new)>(before: (K, K) -> bool, a: seq<K>, b: seq<K>, keys: set<K>)
    requires StrictOrder(before) && Lists(before, a, keys) && Lists(before, b, keys)
    ensures a == b
  {
    assert a != [] ==> a[0] in keys;
    assert b != [] ==> b[0] in keys;
    if a != [] && b != [] {
      assert a[0] in b && b[0] in a;
      TailLists(before, a, keys);
      TailLists(before, b, keys);
      ListingUnique(before, a[1..], b[1..], keys - {a[0]});
    }
  }

  lemma TailLists<K(!new)>(before: (K, K) -> bool, s: seq<K>, keys: set<K>)
    requires StrictOrder(before) && Lists(before, s, keys) && s != []
    ensures Lists(before, s[1..], keys - {s[0]})
  {
    forall k | k in keys - {s[0]} ensures k in s[1..] {
      var i :| 0 <= i < |s| && s[i] == k;
      assert s[1..][i - 1] == k;
    }
  }

  predicate Increasing(a: int, b: int) { a < b }
}
