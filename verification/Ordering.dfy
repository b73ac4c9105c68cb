/** Byte-wise string order and sorting by a string key, as the sort calls of the repository use it. */
module Ordering {

  predicate Less(a: string, b: string)
  {
    if b == [] then false
    else if a == [] then true
    else a[0] < b[0] || (a[0] == b[0] && Less(a[1..], b[1..]))
  }

  lemma {:induction false} LessIrreflexive(a: string)
    ensures !Less(a, a)
  {
    if a != [] { LessIrreflexive(a[1..]); }
  }

  lemma {:induction false} LessTransitive(a: string, b: string, c: string)
    requires Less(a, b) && Less(b, c)
    ensures Less(a, c)
  {
    if a != [] && a[0] == b[0] == c[0] { LessTransitive(a[1..], b[1..], c[1..]); }
  }

  lemma {:induction false} LessTotal(a: string, b: string)
    ensures a == b || Less(a, b) || Less(b, a)
  {
    if a != [] && b != [] && a[0] == b[0] {
      LessTotal(a[1..], b[1..]);
      assert a == [a[0]] + a[1..] && b == [b[0]] + b[1..];
    }
  }

  lemma LessAsymmetric(a: string, b: string)
    requires Less(a, b)
    ensures !Less(b, a)
  {
    if Less(b, a) {
      LessTransitive(a, b, a);
      LessIrreflexive(a);
    }
  }

  lemma HeadsOfPrefixes(a: string, b: string)
    requires a != "" && b != ""
    ensures forall k :: 0 < k <= |a| && k < |b| && a[..k] == b[..k] ==> a[0] == b[0]
  {
    forall k | 0 < k <= |a| && k < |b| ensures a[..k][0] == a[0] && b[..k][0] == b[0] { }
  }

  /** Byte order: the first position at which the strings differ decides, and a proper prefix comes first. */
  lemma {:induction false} LessIsFirstDifference(a: string, b: string)
    ensures Less(a, b) <==> exists k :: 0 <= k <= |a| && k < |b| && a[..k] == b[..k] && (k == |a| || a[k] < b[k])
  {
    if b != "" && a != "" && a[0] == b[0] {
      LessIsFirstDifference(a[1..], b[1..]);
      if Less(a, b) {
        var k :| 0 <= k <= |a[1..]| && k < |b[1..]| && a[1..][..k] == b[1..][..k] &&
                 (k == |a[1..]| || a[1..][k] < b[1..][k]);
        assert a[..k + 1] == [a[0]] + a[1..][..k] && b[..k + 1] == [b[0]] + b[1..][..k];
      }
      if k :| 0 <= k <= |a| && k < |b| && a[..k] == b[..k] && (k == |a| || a[k] < b[k]) {
        assert k > 0;
        assert a[1..][..k - 1] == a[..k][1..] == b[..k][1..] == b[1..][..k - 1];
      }
    } else if b != "" {
      assert a[..0] == b[..0];
      if a != "" { HeadsOfPrefixes(a, b); }
    }
  }

  // ---- Sorting ----

  ghost predicate Ascending<T>(s: seq<T>, key: T -> string)
  {
    forall i, j :: 0 <= i < j < |s| ==> Less(key(s[i]), key(s[j]))
  }

  function Insert<T>(x: T, s: seq<T>, key: T -> string): seq<T>
  {
    if s == [] || !Less(key(s[0]), key(x)) then [x] + s else [s[0]] + Insert(x, s[1..], key)
  }

  function Sort<T>(s: seq<T>, key: T -> string): seq<T>
  {
    if s == [] then [] else Insert(s[0], Sort(s[1..], key), key)
  }

  lemma {:induction false} InsertElements<T>(x: T, s: seq<T>, key: T -> string)
    ensures multiset(Insert(x, s, key)) == multiset{x} + multiset(s)
  {
    if s != [] && Less(key(s[0]), key(x)) {
      InsertElements(x, s[1..], key);
      assert s == [s[0]] + s[1..];
    }
  }

  lemma {:induction false} SortElements<T>(s: seq<T>, key: T -> string)
    ensures multiset(Sort(s, key)) == multiset(s)
  {
    if s != [] {
      SortElements(s[1..], key);
      InsertElements(s[0], Sort(s[1..], key), key);
      assert s == [s[0]] + s[1..];
    }
  }

  lemma SortMembers<T>(s: seq<T>, key: T -> string, x: T)
    ensures x in Sort(s, key) <==> x in s
    ensures |Sort(s, key)| == |s|
  {
    SortElements(s, key);
    assert x in Sort(s, key) <==> x in multiset(Sort(s, key));
    assert |multiset(Sort(s, key))| == |Sort(s, key)|;
  }

  ghost predicate DistinctKeys<T>(s: seq<T>, key: T -> string)
  {
    forall i, j :: 0 <= i < j < |s| ==> key(s[i]) != key(s[j])
  }

  lemma InsertMembers<T>(x: T, s: seq<T>, key: T -> string, y: T)
    ensures y in Insert(x, s, key) <==> y == x || y in s
  {
    InsertElements(x, s, key);
    assert y in Insert(x, s, key) <==> y in multiset(Insert(x, s, key));
  }

  lemma {:induction false} InsertAscending<T>(x: T, s: seq<T>, key: T -> string)
    requires Ascending(s, key) && forall y :: y in s ==> key(y) != key(x)
    ensures Ascending(Insert(x, s, key), key)
  {
    if s != [] {
      LessTotal(key(s[0]), key(x));
      if Less(key(s[0]), key(x)) {
        InsertAscending(x, s[1..], key);
        var rest := Insert(x, s[1..], key);
        forall j | 0 <= j < |rest| ensures Less(key(s[0]), key(rest[j])) {
          InsertMembers(x, s[1..], key, rest[j]);
        }
      } else {
        forall j | 0 <= j < |s| ensures Less(key(x), key(s[j])) {
          if j > 0 { LessTransitive(key(x), key(s[0]), key(s[j])); }
        }
      }
    }
  }

  /** With distinct keys the result is strictly ascending. */
  lemma {:induction false} SortAscending<T>(s: seq<T>, key: T -> string)
    requires DistinctKeys(s, key)
    ensures Ascending(Sort(s, key), key)
  {
    if s != [] {
      SortAscending(s[1..], key);
      forall y | y in Sort(s[1..], key) ensures key(y) != key(s[0]) {
        SortMembers(s[1..], key, y);
        var i :| 0 <= i < |s[1..]| && s[1..][i] == y;
        assert s[i + 1] == y;
      }
      InsertAscending(s[0], Sort(s[1..], key), key);
    }
  }

  /** No later key is smaller. */
  ghost predicate Ordered<T>(s: seq<T>, key: T -> string)
  {
    forall i, j :: 0 <= i < j < |s| ==> !Less(key(s[j]), key(s[i]))
  }

  lemma NotLessTransitive(a: string, b: string, c: string)
    requires !Less(b, a) && !Less(c, b)
    ensures !Less(c, a)
  {
    LessTotal(a, b);
    if Less(c, a) && Less(a, b) { LessTransitive(c, a, b); }
  }

  lemma {:induction false} InsertOrdered<T>(x: T, s: seq<T>, key: T -> string)
    requires Ordered(s, key)
    ensures Ordered(Insert(x, s, key), key)
  {
    if s != [] {
      if Less(key(s[0]), key(x)) {
        InsertOrdered(x, s[1..], key);
        LessAsymmetric(key(s[0]), key(x));
        var rest := Insert(x, s[1..], key);
        forall j | 0 <= j < |rest| ensures !Less(key(rest[j]), key(s[0])) { InsertMembers(x, s[1..], key, rest[j]); }
      } else {
        forall j | 0 <= j < |s| ensures !Less(key(s[j]), key(x)) {
          if j > 0 { NotLessTransitive(key(x), key(s[0]), key(s[j])); }
        }
      }
    }
  }

  /** The result is ordered whatever the keys are. */
  lemma {:induction false} SortOrdered<T>(s: seq<T>, key: T -> string)
    ensures Ordered(Sort(s, key), key)
  {
    if s != [] {
      SortOrdered(s[1..], key);
      InsertOrdered(s[0], Sort(s[1..], key), key);
    }
  }

  /** Ordered with distinct keys is strictly ascending. */
  lemma OrderedAscends<T>(s: seq<T>, key: T -> string)
    requires Ordered(s, key) && DistinctKeys(s, key)
    ensures Ascending(s, key)
  {
    forall i, j | 0 <= i < j < |s| ensures Less(key(s[i]), key(s[j])) { LessTotal(key(s[i]), key(s[j])); }
  }

  /** An ascending sequence is already sorted. */
  lemma {:induction false} SortOfAscending<T>(s: seq<T>, key: T -> string)
    requires Ascending(s, key)
    ensures Sort(s, key) == s
  {
    if s != [] {
      SortOfAscending(s[1..], key);
      if |s| > 1 { LessAsymmetric(key(s[0]), key(s[1])); }
    }
  }

  lemma AscendingHead<T>(s: seq<T>, t: seq<T>, key: T -> string)
    requires Ascending(s, key) && Ascending(t, key) && s != [] && t != []
    requires (forall x :: x in s ==> x in t) && (forall x :: x in t ==> x in s)
    ensures s[0] == t[0]
  {
    assert s[0] in s && t[0] in t;
    var i :| 0 <= i < |t| && t[i] == s[0];
    var j :| 0 <= j < |s| && s[j] == t[0];
    if i > 0 && j > 0 { LessAsymmetric(key(t[0]), key(t[i])); }
  }

  /** Ascending sequences with the same elements are equal, so the order of the input and the
      stability of the sort do not matter. */
  lemma {:induction false} AscendingUnique<T>(s: seq<T>, t: seq<T>, key: T -> string)
    requires Ascending(s, key) && Ascending(t, key)
    requires (forall x :: x in s ==> x in t) && (forall x :: x in t ==> x in s)
    ensures s == t
    decreases |s|
  {
    assert t == [] || t[0] in t;
    if s == [] {
    } else {
      assert s[0] in s;
      AscendingHead(s, t, key);
      TailMembers(s, t, key);
      TailMembers(t, s, key);
      AscendingUnique(s[1..], t[1..], key);
      assert s == [s[0]] + s[1..] && t == [t[0]] + t[1..];
    }
  }

  lemma TailMembers<T>(s: seq<T>, t: seq<T>, key: T -> string)
    requires Ascending(s, key) && s != [] && t != [] && s[0] == t[0] && forall y :: y in s ==> y in t
    ensures forall x :: x in s[1..] ==> x in t[1..]
  {
    forall x | x in s[1..] ensures x in t[1..] {
      var i :| 0 <= i < |s[1..]| && s[1..][i] == x;
      assert s[i + 1] == x && Less(key(s[0]), key(x));
      LessIrreflexive(key(x));
      assert x in t;
    }
  }
}
