/**
  Decimal length prefixes, the building block of both hash preimages, with the reader that
  shows what was written can be told apart again, whatever bytes the fields hold.
 */
module LengthPrefix {
  import opened Prelude

  const COLON: Byte := 58
  const BAR: Byte := 124
  const NEWLINE: Byte := 10

  predicate IsDigit(b: Byte) { 48 <= b <= 57 }

  function Decimal(n: nat): (d: Bytes)
    ensures d != [] && forall i :: 0 <= i < |d| ==> IsDigit(d[i])
  {
    if n < 10 then [48 + n] else Decimal(n / 10) + [48 + n % 10]
  }

  /** Decimal notation: the digits of the tens, if there are any, and the digit of the units. */
  lemma DecimalExactly(tens: nat, units: nat)
    requires units < 10
    ensures Decimal(10 * tens + units) == if tens == 0 then [48 + units] else Decimal(tens) + [48 + units]
  {
    assert (10 * tens + units) / 10 == tens && (10 * tens + units) % 10 == units;
  }

  /** Read digits onto `acc` until something else comes. */
  function ReadDigits(s: Bytes, acc: nat): (r: (nat, Bytes))
    ensures |r.1| <= |s|
  {
    if s == [] || !IsDigit(s[0]) then (acc, s) else ReadDigits(s[1..], acc * 10 + (s[0] - 48))
  }

  lemma {:induction false} DecimalRead(n: nat, rest: Bytes)
    ensures ReadDigits(Decimal(n) + rest, 0) == ReadDigits(rest, n)
  {
    if n >= 10 {
      var last: Bytes := [48 + n % 10];
      assert Decimal(n) + rest == Decimal(n / 10) + (last + rest);
      DecimalRead(n / 10, last + rest);
      assert (last + rest)[1..] == rest;
    } else {
      assert (Decimal(n) + rest)[1..] == rest;
    }
  }

  /** Decimal(n) followed by a separator reads back as n. */
  function ReadNumber(s: Bytes, separator: Byte): (r: Option<(nat, Bytes)>)
    ensures r.Some? ==> |r.value.1| < |s|
  {
    var (n, rest) := ReadDigits(s, 0);
    if rest != [] && rest[0] == separator then Some((n, rest[1..])) else None
  }

  lemma NumberReads(n: nat, separator: Byte, rest: Bytes)
    requires !IsDigit(separator)
    ensures ReadNumber(Decimal(n) + [separator] + rest, separator) == Some((n, rest))
  {
    DecimalRead(n, [separator] + rest);
    assert Decimal(n) + [separator] + rest == Decimal(n) + ([separator] + rest);
    assert ([separator] + rest)[1..] == rest;
  }

  /** `len:bytes`. */
  function Field(a: Bytes): Bytes {
    Decimal(|a|) + [COLON] + a
  }

  function ReadField(s: Bytes): (r: Option<(Bytes, Bytes)>)
    ensures r.Some? ==> |r.value.1| < |s|
  {
    match ReadNumber(s, COLON)
    case None => None
    case Some((n, rest)) => if n <= |rest| then Some((rest[..n], rest[n..])) else None
  }

  lemma FieldReads(a: Bytes, rest: Bytes)
    ensures ReadField(Field(a) + rest) == Some((a, rest))
  {
    NumberReads(|a|, COLON, a + rest);
    assert Field(a) + rest == Decimal(|a|) + [COLON] + (a + rest);
    assert (a + rest)[..|a|] == a && (a + rest)[|a|..] == rest;
  }

  /** A field followed by one separator byte. */
  function ReadFieldThen(s: Bytes, separator: Byte): (r: Option<(Bytes, Bytes)>)
    ensures r.Some? ==> |r.value.1| < |s|
  {
    match ReadField(s)
    case None => None
    case Some((a, rest)) => if rest != [] && rest[0] == separator then Some((a, rest[1..])) else None
  }

  lemma FieldThenReads(a: Bytes, separator: Byte, rest: Bytes)
    ensures ReadFieldThen(Field(a) + [separator] + rest, separator) == Some((a, rest))
  {
    FieldReads(a, [separator] + rest);
    assert Field(a) + [separator] + rest == Field(a) + ([separator] + rest);
    assert ([separator] + rest)[1..] == rest;
  }

  /** The renderings of a list, one after the other. */
  function Concat<T>(render: T -> Bytes, xs: seq<T>): Bytes {
    if xs == [] then [] else Concat(render, xs[..|xs|-1]) + render(xs[|xs|-1])
  }

  lemma {:induction false} ConcatFront<T>(render: T -> Bytes, xs: seq<T>)
    requires xs != []
    ensures Concat(render, xs) == render(xs[0]) + Concat(render, xs[1..])
  {
    var n := |xs| - 1;
    if n == 0 {
      assert xs[..0] == [] && xs[1..] == [];
    } else {
      ConcatFront(render, xs[..n]);
      assert xs[..n][1..] == xs[1..][..n-1] && xs[1..][n-1] == xs[n];
      assert (render(xs[0]) + Concat(render, xs[1..][..n-1])) + render(xs[n]) ==
               render(xs[0]) + (Concat(render, xs[1..][..n-1]) + render(xs[n]));
    }
  }

  lemma ConcatBack<T>(render: T -> Bytes, xs: seq<T>, x: T)
    ensures Concat(render, xs + [x]) == Concat(render, xs) + render(x)
  {
    assert (xs + [x])[..|xs|] == xs;
  }

  lemma Flat(a: Bytes, b: Bytes, c: Bytes, d: Bytes, e: Bytes, f: Bytes)
    ensures a + b + (c + d + (e + f)) == a + b + c + d + e + f
  {
  }

  /** Render a list by appending to a buffer. */
  method AppendAll<T>(render: T -> Bytes, xs: seq<T>) returns (buf: Bytes)
    ensures buf == Concat(render, xs)
  {
    buf := [];
    var i := 0;
    while i < |xs|
      invariant 0 <= i <= |xs| && buf == Concat(render, xs[..i])
    {
      assert xs[..i+1][..i] == xs[..i];
      buf := buf + render(xs[i]);
      i := i + 1;
    }
    assert xs[..i] == xs;
  }
}
