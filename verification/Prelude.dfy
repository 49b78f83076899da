/** Small types every component shares. */
module Prelude {

  datatype Option<+T> = None | Some(value: T)

  datatype Result<+T, +E> = Success(value: T) | Failure(error: E)

  /** One byte of a Go string or slice. */
  type Byte = b: int | 0 <= b < 256

  type Bytes = seq<Byte>

  /** A lower-case hex SHA-256 digest. */
  type Digest = string

  /** The hash is abstract; what the code relies on is that no two contents collide and
      that a digest is never the empty string. */
  ghost predicate CollisionFree(sha: Bytes -> Digest) {
    && (forall a, b :: sha(a) == sha(b) ==> a == b)
    && (forall a :: sha(a) != "")
  }

  function Lookup<K, V>(m: map<K, V>, k: K): Option<V> {
    if k in m then Some(m[k]) else None
  }

  ghost predicate Distinct<T>(xs: seq<T>) {
    forall i, j :: 0 <= i < j < |xs| ==> xs[i] != xs[j]
  }

  function Elements<T>(xs: seq<T>): set<T> {
    set x | x in xs
  }

  /** Distinct elements drawn from a finite set cannot outnumber it. */
  lemma {:induction false} DistinctFits<T>(xs: seq<T>, s: set<T>)
    requires Distinct(xs) && Elements(xs) <= s
    ensures |xs| <= |s|
    ensures |xs| == |s| ==> Elements(xs) == s
  {
    if xs == [] {
    } else {
      var last := |xs| - 1;
      var rest := xs[..last];
      assert xs == rest + [xs[last]];
      assert Elements(rest) <= s - {xs[last]};
      DistinctFits(rest, s - {xs[last]});
      assert Elements(xs) == Elements(rest) + {xs[last]};
    }
  }

  ghost predicate EndsWithItsLast<T, U>(one: T -> seq<U>, all: seq<T> -> seq<U>, xs: seq<T>) {
    xs != [] ==> all(xs) == all(xs[..|xs|-1]) + one(xs[|xs|-1])
  }

  /** What is made element by element is made part by part. */
  lemma {:induction false} EachInTurn<T(!new), U>(one: T -> seq<U>, all: seq<T> -> seq<U>, a: seq<T>, b: seq<T>)
    requires all([]) == [] && forall xs {:trigger EndsWithItsLast(one, all, xs)} :: EndsWithItsLast(one, all, xs)
    ensures all(a + b) == all(a) + all(b)
    decreases |b|
  {
    if b == [] {
      assert a + b == a;
    } else {
      assert (a + b)[..|a + b|-1] == a + b[..|b|-1];
      assert EndsWithItsLast(one, all, a + b) && EndsWithItsLast(one, all, b);
      EachInTurn(one, all, a, b[..|b|-1]);
    }
  }
}
