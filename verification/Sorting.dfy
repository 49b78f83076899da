/**
  The ordering the Go and Python code gets from its standard library: byte order on
  strings and a stable sort. The sort is modelled as a function; the lemmas say what
  the callers rely on: sorted, a permutation, stable, and unique.
 */
module Sorting {
  import opened Prelude

  ghost predicate TotalPreorder<T(!new)>(le: (T, T) -> bool) {
    && (forall x, y :: le(x, y) || le(y, x))
    && (forall x, y, z :: le(x, y) && le(y, z) ==> le(x, z))
  }

  ghost predicate Antisymmetric<T(!new)>(le: (T, T) -> bool) {
    forall x, y :: le(x, y) && le(y, x) ==> x == y
  }

  ghost predicate SortedBy<T>(xs: seq<T>, le: (T, T) -> bool) {
    forall i, j :: 0 <= i < j < |xs| ==> le(xs[i], xs[j])
  }

  function Insert<T>(x: T, xs: seq<T>, le: (T, T) -> bool): seq<T> {
    if xs == [] || le(x, xs[0]) then [x] + xs
    else [xs[0]] + Insert(x, xs[1..], le)
  }

  /** Stable: an element goes in front of the equivalent elements that followed it. */
  function Sort<T>(xs: seq<T>, le: (T, T) -> bool): seq<T> {
    if xs == [] then [] else Insert(xs[0], Sort(xs[1..], le), le)
  }

  lemma {:induction false} InsertPermutes<T>(x: T, xs: seq<T>, le: (T, T) -> bool)
    ensures multiset(Insert(x, xs, le)) == multiset{x} + multiset(xs)
  {
    if xs == [] || le(x, xs[0]) {
    } else {
      InsertPermutes(x, xs[1..], le);
      assert xs == [xs[0]] + xs[1..];
    }
  }

  lemma {:induction false} SortPermutes<T>(xs: seq<T>, le: (T, T) -> bool)
    ensures multiset(Sort(xs, le)) == multiset(xs)
    ensures |Sort(xs, le)| == |xs|
    ensures forall x :: x in Sort(xs, le) <==> x in xs
  {
    if xs == [] {
    } else {
      SortPermutes(xs[1..], le);
      InsertPermutes(xs[0], Sort(xs[1..], le), le);
      assert xs == [xs[0]] + xs[1..];
    }
    assert |multiset(Sort(xs, le))| == |multiset(xs)|;
    forall x ensures x in Sort(xs, le) <==> x in xs {
      assert x in multiset(Sort(xs, le)) <==> x in multiset(xs);
    }
  }

  lemma {:induction false} InsertSorts<T(!new)>(x: T, xs: seq<T>, le: (T, T) -> bool)
    requires TotalPreorder(le) && SortedBy(xs, le)
    ensures SortedBy(Insert(x, xs, le), le)
  {
    if xs == [] || le(x, xs[0]) {
    } else {
      InsertSorts(x, xs[1..], le);
      InsertPermutes(x, xs[1..], le);
      var tail := Insert(x, xs[1..], le);
      forall j | 0 <= j < |tail| ensures le(xs[0], tail[j]) {
        assert tail[j] in multiset(tail);
        assert tail[j] == x || tail[j] in xs[1..];
      }
    }
  }

  lemma {:induction false} SortSorts<T(!new)>(xs: seq<T>, le: (T, T) -> bool)
    requires TotalPreorder(le)
    ensures SortedBy(Sort(xs, le), le)
  {
    if xs == [] {
    } else {
      SortSorts(xs[1..], le);
      InsertSorts(xs[0], Sort(xs[1..], le), le);
    }
  }

  lemma SortedHead<T(!new)>(a: seq<T>, b: seq<T>, le: (T, T) -> bool)
    requires TotalPreorder(le) && a != [] && b != []
    requires SortedBy(a, le) && multiset(a) == multiset(b)
    ensures le(a[0], b[0])
  {
    assert b[0] in multiset(a);
    var j :| 0 <= j < |a| && a[j] == b[0];
    assert le(a[0], a[0]);
  }

  lemma TailMultiset<T>(a: seq<T>)
    requires a != []
    ensures multiset(a[1..]) == multiset(a) - multiset{a[0]}
  {
    assert a == [a[0]] + a[1..];
  }

  /** A sorted arrangement is unique: this is what makes an output independent of the
      order a map was iterated in. */
  lemma {:induction false} SortedUnique<T(!new)>(a: seq<T>, b: seq<T>, le: (T, T) -> bool)
    requires TotalPreorder(le) && Antisymmetric(le)
    requires SortedBy(a, le) && SortedBy(b, le) && multiset(a) == multiset(b)
    ensures a == b
  {
    assert |multiset(a)| == |a| && |multiset(b)| == |b|;
    if a == [] {
    } else {
      SortedHead(a, b, le);
      SortedHead(b, a, le);
      TailMultiset(a);
      TailMultiset(b);
      SortedUnique(a[1..], b[1..], le);
      assert a == [a[0]] + a[1..] && b == [b[0]] + b[1..];
    }
  }

  /** Two duplicate-free sorted lists of the same set are the same list. */
  lemma SortedSetUnique<T(!new)>(a: seq<T>, b: seq<T>, le: (T, T) -> bool)
    requires TotalPreorder(le) && Antisymmetric(le)
    requires SortedBy(a, le) && SortedBy(b, le) && Distinct(a) && Distinct(b)
    requires Elements(a) == Elements(b)
    ensures a == b
  {
    DistinctMultiset(a);
    DistinctMultiset(b);
    SortedUnique(a, b, le);
  }

  lemma {:induction false} DistinctMultiset<T>(xs: seq<T>)
    requires Distinct(xs)
    ensures multiset(xs) == multiset(Elements(xs))
  {
    if xs == [] {
    } else {
      var rest := xs[1..];
      assert xs == [xs[0]] + rest;
      assert Elements(xs) == {xs[0]} + Elements(rest);
      DistinctMultiset(rest);
    }
  }

  lemma DuplicateCounts<T>(s: seq<T>, i: nat, j: nat)
    requires i < j < |s|
    ensures s[i] == s[j] ==> multiset(s)[s[i]] >= 2
  {
    assert s == s[..i] + [s[i]] + s[i+1..j] + [s[j]] + s[j+1..];
  }

  lemma SortDistinct<T>(xs: seq<T>, le: (T, T) -> bool)
    requires Distinct(xs)
    ensures Distinct(Sort(xs, le))
    ensures Elements(Sort(xs, le)) == Elements(xs)
  {
    SortPermutes(xs, le);
    DistinctMultiset(xs);
    var s := Sort(xs, le);
    forall x ensures x in Elements(s) <==> x in Elements(xs) {
      assert x in s <==> x in xs;
    }
    assert Elements(s) == Elements(xs);
    forall i, j | 0 <= i < j < |s| ensures s[i] != s[j] {
      DuplicateCounts(s, i, j);
    }
  }

  /** Byte order on strings. */
  predicate LexLe(a: string, b: string) {
    a == [] || (b != [] && (a[0] < b[0] || (a[0] == b[0] && LexLe(a[1..], b[1..]))))
  }

  /** Where two strings first differ, the smaller character decides; where they do not, the
      shorter string comes first. */
  lemma {:induction false} LexLeExactly(a: string, b: string, k: nat)
    requires k <= |a| && k <= |b| && a[..k] == b[..k]
    requires k < |a| && k < |b| ==> a[k] != b[k]
    ensures LexLe(a, b) <==> k == |a| || (k < |b| && a[k] < b[k])
  {
    if k == 0 {
    } else {
      assert a[..k][0] == b[..k][0];
      assert a[1..][..k-1] == a[..k][1..] && b[1..][..k-1] == b[..k][1..];
      LexLeExactly(a[1..], b[1..], k - 1);
    }
  }

  lemma {:induction false} LexTotal(a: string, b: string)
    ensures LexLe(a, b) || LexLe(b, a)
  {
    if a == [] || b == [] {
    } else {
      LexTotal(a[1..], b[1..]);
    }
  }

  lemma {:induction false} LexTransitive(a: string, b: string, c: string)
    requires LexLe(a, b) && LexLe(b, c)
    ensures LexLe(a, c)
  {
    if a != [] && a[0] == b[0] && b[0] == c[0] {
      LexTransitive(a[1..], b[1..], c[1..]);
    }
  }

  lemma {:induction false} LexAntisymmetric(a: string, b: string)
    requires LexLe(a, b) && LexLe(b, a)
    ensures a == b
  {
    if a == [] {
    } else {
      LexAntisymmetric(a[1..], b[1..]);
    }
  }

  lemma LexOrder()
    ensures TotalPreorder(LexLe) && Antisymmetric(LexLe)
  {
    forall a, b ensures LexLe(a, b) || LexLe(b, a) { LexTotal(a, b); }
    forall a, b, c | LexLe(a, b) && LexLe(b, c) ensures LexLe(a, c) { LexTransitive(a, b, c); }
    forall a, b | LexLe(a, b) && LexLe(b, a) ensures a == b { LexAntisymmetric(a, b); }
  }

  lemma InsertNew<T(!new)>(x: T, xs: seq<T>, le: (T, T) -> bool)
    requires TotalPreorder(le) && SortedBy(xs, le) && Distinct(xs) && x !in xs
    ensures SortedBy(Insert(x, xs, le), le) && Distinct(Insert(x, xs, le))
    ensures Elements(Insert(x, xs, le)) == Elements(xs) + {x}
  {
    InsertSorts(x, xs, le);
    InsertPermutes(x, xs, le);
    DistinctMultiset(xs);
    var s := Insert(x, xs, le);
    forall y ensures y in Elements(s) <==> y in Elements(xs) + {x} {
      assert y in multiset(s) <==> y in multiset{x} + multiset(xs);
    }
    forall i, j | 0 <= i < j < |s| ensures s[i] != s[j] {
      DuplicateCounts(s, i, j);
    }
  }

  /** The sorted, duplicate-free list of a set of strings. */
  ghost function SortedSet(keys: set<string>): (out: seq<string>)
    ensures SortedBy(out, LexLe) && Distinct(out) && Elements(out) == keys
  {
    if keys == {} then []
    else
      var k :| k in keys;
      LexOrder();
      var rest := SortedSet(keys - {k});
      InsertNew(k, rest, LexLe);
      Insert(k, rest, LexLe)
  }

  /** The keys of a map, sorted: collect them in whatever order the map yields, then sort. */
  method SortedKeys(keys: set<string>) returns (out: seq<string>)
    ensures out == SortedSet(keys)
  {
    var pending := keys;
    var found: seq<string> := [];
    while pending != {}
      invariant pending <= keys && Elements(found) == keys - pending
      invariant Distinct(found)
      decreases |pending|
    {
      var k :| k in pending;
      assert Elements(found + [k]) == Elements(found) + {k};
      found := found + [k];
      pending := pending - {k};
    }
    out := Sort(found, LexLe);
    SortDistinct(found, LexLe);
    LexOrder();
    SortSorts(found, LexLe);
    SortedSetUnique(out, SortedSet(keys), LexLe);
  }
}
