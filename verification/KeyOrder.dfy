/** Byte-wise string order and the sorting of map keys (sort.Strings). */
module KeyOrder {
  import opened Common

  predicate Less(a: Bytes, b: Bytes) {
    if b == [] then false
    else if a == [] then true
    else a[0] < b[0] || (a[0] == b[0] && Less(a[1..], b[1..]))
  }

  /** The order by the first difference: b goes on where a ends, or has the larger byte there. */
  ghost predicate FirstDifference(a: Bytes, b: Bytes, i: nat) {
    && i <= |a| && i < |b| && a[..i] == b[..i]
    && (i == |a| || a[i] < b[i])
  }

  lemma {:induction false} LessMeans(a: Bytes, b: Bytes)
    ensures Less(a, b) <==> exists i: nat :: FirstDifference(a, b, i)
  {
    if a == [] || b == [] {
      if a == [] && b != [] { assert FirstDifference(a, b, 0); }
    } else {
      LessMeans(a[1..], b[1..]);
      if a[0] < b[0] {
        assert FirstDifference(a, b, 0);
      } else if a[0] == b[0] {
        if i: nat :| FirstDifference(a[1..], b[1..], i) {
          assert a[..i + 1] == [a[0]] + a[1..][..i] && b[..i + 1] == [b[0]] + b[1..][..i];
          assert FirstDifference(a, b, i + 1);
        }
        if i: nat :| FirstDifference(a, b, i) {
          assert i > 0 && a[1..][..i - 1] == a[..i][1..] && b[1..][..i - 1] == b[..i][1..];
          assert FirstDifference(a[1..], b[1..], i - 1);
        }
      } else {
        forall i: nat ensures !FirstDifference(a, b, i) {
          if i > 0 && i <= |a| && i < |b| { assert a[..i][0] == a[0] && b[..i][0] == b[0]; }
        }
      }
    }
  }

  lemma {:induction false} LessTotal(a: Bytes, b: Bytes)
    ensures Less(a, b) || a == b || Less(b, a)
    ensures !(Less(a, b) && (a == b || Less(b, a)))
  {
    if a != [] && b != [] {
      LessTotal(a[1..], b[1..]);
      assert a == [a[0]] + a[1..] && b == [b[0]] + b[1..];
    } else if a == b {
    } else {
      assert Less(a, b) || Less(b, a);
    }
  }

  lemma {:induction false} LessTransitive(a: Bytes, b: Bytes, c: Bytes)
    requires Less(a, b) && Less(b, c)
    ensures Less(a, c)
  {
    if a != [] && a[0] == b[0] == c[0] {
      LessTransitive(a[1..], b[1..], c[1..]);
    }
  }

  /** Strictly ascending, hence without duplicates. */
  ghost predicate Ascending(keys: seq<Bytes>) {
    forall i, j :: 0 <= i < j < |keys| ==> Less(keys[i], keys[j])
  }

  ghost function Elements<T>(s: seq<T>): set<T> { set x | x in s }

  /** An ascending listing of a set is unique: this is what makes map iteration order irrelevant. */
  lemma {:induction false} AscendingUnique(s: seq<Bytes>, t: seq<Bytes>)
    requires Ascending(s) && Ascending(t) && Elements(s) == Elements(t)
    ensures s == t
  {
    assert s != [] ==> s[0] in Elements(s) && s[0] in t;
    assert t != [] ==> t[0] in Elements(t) && t[0] in s;
    if s != [] && t != [] {
      LessTotal(s[0], t[0]);
      assert s[0] == t[0];
      TailElements(s);
      TailElements(t);
      AscendingUnique(s[1..], t[1..]);
      assert s == [s[0]] + s[1..] && t == [t[0]] + t[1..];
    }
  }

  lemma TailElements(s: seq<Bytes>)
    requires s != [] && Ascending(s)
    ensures Elements(s[1..]) == Elements(s) - {s[0]}
  {
    forall x | x in s[1..] ensures x != s[0] {
      LessTotal(s[0], x);
    }
    assert s == [s[0]] + s[1..];
  }

  lemma {:induction false} AscendingCardinality(s: seq<Bytes>)
    requires Ascending(s)
    ensures |Elements(s)| == |s|
  {
    if s != [] {
      TailElements(s);
      AscendingCardinality(s[1..]);
      assert s[0] in Elements(s);
    } else {
      assert Elements(s) == {};
    }
  }

  /** Placing a new key between the smaller and the larger ones keeps the listing ascending. */
  lemma InsertKeepsAscending(keys: seq<Bytes>, k: Bytes, i: nat)
    requires Ascending(keys) && k !in keys && i <= |keys|
    requires forall j :: 0 <= j < i ==> Less(keys[j], k)
    requires i < |keys| ==> !Less(keys[i], k)
    ensures Ascending(keys[..i] + [k] + keys[i..])
    ensures Elements(keys[..i] + [k] + keys[i..]) == Elements(keys) + {k}
  {
    forall j | i <= j < |keys| ensures Less(k, keys[j]) {
      LessTotal(keys[i], k);
      if j > i { LessTransitive(k, keys[i], keys[j]); }
    }
    assert keys == keys[..i] + keys[i..];
  }

  method Insert(keys: seq<Bytes>, k: Bytes) returns (r: seq<Bytes>)
    requires Ascending(keys) && k !in keys
    ensures Ascending(r) && Elements(r) == Elements(keys) + {k}
  {
    var i := 0;
    while i < |keys| && Less(keys[i], k)
      invariant 0 <= i <= |keys|
      invariant forall j :: 0 <= j < i ==> Less(keys[j], k)
    {
      i := i + 1;
    }
    InsertKeepsAscending(keys, k, i);
    r := keys[..i] + [k] + keys[i..];
  }

  /** sort.Strings on distinct keys in any order: the ascending listing of the same keys. */
  method SortStrings(keys: seq<Bytes>) returns (r: seq<Bytes>)
    requires forall i, j :: 0 <= i < j < |keys| ==> keys[i] != keys[j]
    ensures Ascending(r) && Elements(r) == Elements(keys)
  {
    r := [];
    for n := 0 to |keys|
      invariant Ascending(r) && Elements(r) == Elements(keys[..n])
    {
      assert keys[..n + 1] == keys[..n] + [keys[n]];
      assert keys[n] !in keys[..n];
      assert keys[n] !in Elements(r);
      r := Insert(r, keys[n]);
    }
    assert keys[..|keys|] == keys;
  }

  lemma {:induction false} AscendingListingExists(ks: set<Bytes>) returns (s: seq<Bytes>)
    ensures Ascending(s) && Elements(s) == ks
  {
    if ks == {} {
      s := [];
    } else {
      var k :| k in ks;
      var t := AscendingListingExists(ks - {k});
      var i := 0;
      assert k !in Elements(t);
      while i < |t| && Less(t[i], k)
        invariant 0 <= i <= |t|
        invariant forall j :: 0 <= j < i ==> Less(t[j], k)
      {
        i := i + 1;
      }
      InsertKeepsAscending(t, k, i);
      s := t[..i] + [k] + t[i..];
    }
  }

  /** The keys of a map in the order the encoding writes them. */
  ghost function SortedKeys(ks: set<Bytes>): (s: seq<Bytes>)
    ensures Ascending(s) && Elements(s) == ks && |s| == |ks|
    ensures forall k :: k in s <==> k in ks
  {
    assert exists s :: Ascending(s) && Elements(s) == ks by {
      var s := AscendingListingExists(ks);
    }
    var s :| Ascending(s) && Elements(s) == ks;
    AscendingCardinality(s);
    assert forall k :: k in s <==> k in Elements(s);
    s
  }
}
