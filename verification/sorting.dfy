/** Go's string ordering, the sorts the usage listings rely on (`sort.Strings`
    and `sort.Stable` over a by-name ordering), and the enumeration of a Go
    map's keys in an unspecified order. */
module Sorting {

  /** Go's `a < b` on strings: lexicographic, element by element.  Go compares
      UTF-8 bytes; for valid text that agrees with comparing code points, which
      is what `char` comparison does here. */
  predicate Less(a: string, b: string)
  {
    if |a| == 0 then |b| > 0
    else |b| > 0 && (a[0] < b[0] || (a[0] == b[0] && Less(a[1..], b[1..])))
  }

  /** `Less` is Go's byte-wise string order: `a` is a proper prefix of `b`, or
      at the first position where they differ `a` has the smaller element. */
  lemma {:induction false} LessIsFirstDifference(a: string, b: string)
    ensures Less(a, b) <==>
              (|a| < |b| && a == b[..|a|])
              || exists i :: 0 <= i < |a| && i < |b| && a[..i] == b[..i] && a[i] < b[i]
  {
    if |a| > 0 && |b| > 0 {
      LessIsFirstDifference(a[1..], b[1..]);
      if a[0] == b[0] {
        if exists i :: 0 <= i < |a[1..]| && i < |b[1..]| && a[1..][..i] == b[1..][..i] && a[1..][i] < b[1..][i] {
          var i :| 0 <= i < |a[1..]| && i < |b[1..]| && a[1..][..i] == b[1..][..i] && a[1..][i] < b[1..][i];
          assert a[..i + 1] == [a[0]] + a[1..][..i];
          assert b[..i + 1] == [b[0]] + b[1..][..i];
        }
        if exists i :: 0 <= i < |a| && i < |b| && a[..i] == b[..i] && a[i] < b[i] {
          var i :| 0 <= i < |a| && i < |b| && a[..i] == b[..i] && a[i] < b[i];
          assert i > 0;
          assert a[1..][..i - 1] == a[..i][1..];
          assert b[1..][..i - 1] == b[..i][1..];
        }
        if |a| < |b| && a == b[..|a|] {
          assert a[1..] == b[1..][..|a[1..]|];
        }
        if |a[1..]| < |b[1..]| && a[1..] == b[1..][..|a[1..]|] {
          assert a == [a[0]] + a[1..] && b[..|a|] == [b[0]] + b[1..][..|a[1..]|];
        }
      } else {
        assert a[..0] == b[..0];
        if exists i :: 0 <= i < |a| && i < |b| && a[..i] == b[..i] && a[i] < b[i] {
          var i :| 0 <= i < |a| && i < |b| && a[..i] == b[..i] && a[i] < b[i];
          if i > 0 {
            assert a[..i][0] == b[..i][0];
          }
        }
      }
    } else if |a| == 0 {
      assert a == b[..0];
    }
  }

  lemma {:induction false} LessIrreflexive(a: string)
    ensures !Less(a, a)
  {
    if |a| > 0 {
      LessIrreflexive(a[1..]);
    }
  }

  lemma {:induction false} LessAsymmetric(a: string, b: string)
    requires Less(a, b)
    ensures !Less(b, a)
  {
    if |a| > 0 && |b| > 0 && a[0] == b[0] {
      LessAsymmetric(a[1..], b[1..]);
    }
  }

  lemma {:induction false} LessTransitive(a: string, b: string, c: string)
    requires Less(a, b) && Less(b, c)
    ensures Less(a, c)
  {
    if |a| > 0 && a[0] == b[0] && b[0] == c[0] {
      LessTransitive(a[1..], b[1..], c[1..]);
    }
  }

  lemma {:induction false} LessTotal(a: string, b: string)
    ensures Less(a, b) || a == b || Less(b, a)
  {
    if |a| > 0 && |b| > 0 && a[0] == b[0] {
      LessTotal(a[1..], b[1..]);
      if a[1..] == b[1..] {
        assert a == [a[0]] + a[1..] && b == [b[0]] + b[1..];
      }
    }
  }

  /** No element is followed by one whose key is smaller. */
  ghost predicate SortedBy<T>(s: seq<T>, key: T -> string)
  {
    forall i, j :: 0 <= i < j < |s| ==> !Less(key(s[j]), key(s[i]))
  }

  /** Keys strictly ascend: sorted, and no key occurs twice. */
  ghost predicate StrictlySortedBy<T>(s: seq<T>, key: T -> string)
  {
    forall i, j :: 0 <= i < j < |s| ==> Less(key(s[i]), key(s[j]))
  }

  ghost predicate DistinctKeys<T>(s: seq<T>, key: T -> string)
  {
    forall i, j :: 0 <= i < j < |s| ==> key(s[i]) != key(s[j])
  }

  /** Inserts `x` after every element whose key is not greater than its own,
      so that elements of equal key keep the order in which they arrived. */
  function Insert<T>(s: seq<T>, x: T, key: T -> string): (r: seq<T>)
    ensures multiset(r) == multiset(s) + multiset{x}
  {
    if |s| == 0 then [x]
    else if Less(key(x), key(s[0])) then [x] + s
    else
      assert s == [s[0]] + s[1..];
      [s[0]] + Insert(s[1..], x, key)
  }

  lemma {:induction false} InsertSorted<T>(s: seq<T>, x: T, key: T -> string)
    requires SortedBy(s, key)
    ensures SortedBy(Insert(s, x, key), key)
  {
    if |s| == 0 {
    } else if Less(key(x), key(s[0])) {
      LessAsymmetric(key(x), key(s[0]));
      forall j | 0 < j < |s|
        ensures !Less(key(s[j]), key(x))
      {
        if Less(key(s[j]), key(x)) {
          LessTransitive(key(s[j]), key(x), key(s[0]));
        }
      }
    } else {
      var tail := Insert(s[1..], x, key);
      InsertSorted(s[1..], x, key);
      forall j | 0 <= j < |tail|
        ensures !Less(key(tail[j]), key(s[0]))
      {
        assert tail[j] in multiset(tail);
        if tail[j] != x {
          assert tail[j] in s[1..];
        }
      }
    }
  }

  lemma {:induction false} InsertStrict<T>(s: seq<T>, x: T, key: T -> string)
    ensures StrictlySortedBy(s, key) && (forall i :: 0 <= i < |s| ==> key(s[i]) != key(x))
            ==> StrictlySortedBy(Insert(s, x, key), key)
  {
    if StrictlySortedBy(s, key) && (forall i :: 0 <= i < |s| ==> key(s[i]) != key(x)) {
      if |s| == 0 {
      } else if Less(key(x), key(s[0])) {
        forall j | 0 < j < |s|
          ensures Less(key(x), key(s[j]))
        {
          LessTransitive(key(x), key(s[0]), key(s[j]));
        }
      } else {
        var tail := Insert(s[1..], x, key);
        assert StrictlySortedBy(s[1..], key);
        assert forall i :: 0 <= i < |s[1..]| ==> key(s[1..][i]) != key(x);
        InsertStrict(s[1..], x, key);
        LessTotal(key(x), key(s[0]));
        forall j | 0 <= j < |tail|
          ensures Less(key(s[0]), key(tail[j]))
        {
          assert tail[j] in multiset(tail);
          if tail[j] != x {
            assert tail[j] in s[1..];
          }
        }
        assert Insert(s, x, key) == [s[0]] + tail;
      }
    }
  }

  /** Insertion sort by key; stable, because each element is inserted after
      the equal-keyed elements that preceded it in `s`.  Both `sort.Strings`
      and `sort.Stable(byName(..))` are modelled by it: on keys that are
      pairwise distinct every sorting algorithm returns this same sequence
      (see StrictlySortedUnique). */
  function SortBy<T>(s: seq<T>, key: T -> string): (r: seq<T>)
    ensures SortedBy(r, key)
    ensures multiset(r) == multiset(s)
    ensures DistinctKeys(s, key) ==> StrictlySortedBy(r, key)
  {
    if |s| == 0 then []
    else
      var init := s[..|s| - 1];
      var x := s[|s| - 1];
      var sorted := SortBy(init, key);
      assert s == init + [x];
      assert DistinctKeys(s, key) ==> DistinctKeys(init, key);
      assert DistinctKeys(s, key) ==> forall i :: 0 <= i < |sorted| ==> key(sorted[i]) != key(x) by {
        if DistinctKeys(s, key) {
          forall i | 0 <= i < |sorted|
            ensures key(sorted[i]) != key(x)
          {
            assert sorted[i] in multiset(sorted);
            assert sorted[i] in init;
            var p :| 0 <= p < |init| && init[p] == sorted[i];
            assert s[p] == sorted[i];
          }
        }
      }
      InsertSorted(sorted, x, key);
      InsertStrict(sorted, x, key);
      Insert(sorted, x, key)
  }

  /** Two strictly sorted sequences holding the same elements are the same
      sequence: a sorted listing of distinct keys does not depend on the order
      in which the elements were gathered. */
  lemma {:induction false} StrictlySortedUnique<T>(a: seq<T>, b: seq<T>, key: T -> string)
    requires StrictlySortedBy(a, key) && StrictlySortedBy(b, key)
    requires forall x :: x in a <==> x in b
    ensures a == b
  {
    if |a| == 0 || |b| == 0 {
      if |a| > 0 {
        HeadIsMember(a);
        assert false;
      } else if |b| > 0 {
        HeadIsMember(b);
        assert false;
      }
    } else {
      HeadsAgree(a, b, key);
      var a', b' := a[1..], b[1..];
      assert a == [a[0]] + a' && b == [b[0]] + b';
      forall x
        ensures x in a' <==> x in b'
      {
        if x in a' {
          var i :| 0 <= i < |a'| && a'[i] == x;
          LessIrreflexive(key(a[0]));
          assert x != a[0] by { assert Less(key(a[0]), key(a[i + 1])); }
          assert x in b;
          var k :| 0 <= k < |b| && b[k] == x;
          assert k != 0 && b'[k - 1] == x;
        }
        if x in b' {
          var j :| 0 <= j < |b'| && b'[j] == x;
          LessIrreflexive(key(b[0]));
          assert x != b[0] by { assert Less(key(b[0]), key(b[j + 1])); }
          assert x in a;
          var k :| 0 <= k < |a| && a[k] == x;
          assert k != 0 && a'[k - 1] == x;
        }
      }
      StrictlySortedUnique(a', b', key);
    }
  }

  lemma HeadIsMember<T>(s: seq<T>)
    requires |s| > 0
    ensures s[0] in s
  {
  }

  lemma HeadsAgree<T>(a: seq<T>, b: seq<T>, key: T -> string)
    requires StrictlySortedBy(a, key) && StrictlySortedBy(b, key)
    requires (forall x :: x in a <==> x in b) && |a| > 0 && |b| > 0
    ensures a[0] == b[0]
  {
    assert a[0] in b;
    var j :| 0 <= j < |b| && b[j] == a[0];
    assert b[0] in a;
    var i :| 0 <= i < |a| && a[i] == b[0];
    if i != 0 && j != 0 {
      LessAsymmetric(key(a[0]), key(b[0]));
    } else if i != 0 {
      LessIrreflexive(key(a[0]));
    } else if j != 0 {
      LessIrreflexive(key(b[0]));
    }
  }

  /** `for k := range m` in Go: every key exactly once, in an order the
      language leaves unspecified. */
  method EnumerateKeys<K, V>(m: map<K, V>) returns (ks: seq<K>)
    ensures |ks| == |m|
    ensures forall k :: k in m <==> k in ks
    ensures forall i, j :: 0 <= i < j < |ks| ==> ks[i] != ks[j]
  {
    ks := [];
    var rest := m.Keys;
    while rest != {}
      invariant rest <= m.Keys
      invariant forall k :: k in m.Keys <==> k in rest || k in ks
      invariant forall k :: k in ks ==> k !in rest
      invariant forall i, j :: 0 <= i < j < |ks| ==> ks[i] != ks[j]
      invariant |ks| + |rest| == |m|
      decreases rest
    {
      var k :| k in rest;
      ks := ks + [k];
      rest := rest - {k};
    }
  }

  /** Sorting keeps the length and the members of the sequence. */
  lemma SortByKeepsMembers<T>(s: seq<T>, key: T -> string)
    ensures |SortBy(s, key)| == |s|
    ensures forall x :: x in SortBy(s, key) <==> x in s
  {
    var r := SortBy(s, key);
    assert forall x :: x in r <==> x in multiset(r);
    assert forall x :: x in s <==> x in multiset(s);
    assert |r| == |multiset(r)| == |multiset(s)| == |s|;
  }

  function Self(k: string): string
  {
    k
  }

  /** `sort.Strings` applied to the keys of a map gathered by `range`. */
  method SortedKeys<V>(m: map<string, V>) returns (keys: seq<string>)
    ensures |keys| == |m|
    ensures forall k :: k in m <==> k in keys
    ensures forall i, j :: 0 <= i < j < |keys| ==> Less(keys[i], keys[j])
  {
    var gathered := EnumerateKeys(m);
    assert DistinctKeys(gathered, Self);
    keys := SortBy(gathered, Self);
    SortByKeepsMembers(gathered, Self);
    assert StrictlySortedBy(keys, Self);
  }
}
