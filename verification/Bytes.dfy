/** Bytes, and the arithmetic on sequences and remainders that every other module uses. */
module Bytes {

  type byte = bv8

  /** Sizes and times are 64-bit unsigned in the C code. */
  const TWO_64: nat := 0x1_0000_0000_0000_0000

  /** The byte that holds a number below 256. */
  function ToByte(n: nat): (b: byte)
    requires n < 256
    ensures b as int == n
  {
    if n == 0 then 0 else
      var p := ToByte(n - 1);
      NextByte(p);
      p + 1
  }

  lemma NextByte(b: byte)
    requires b as int < 255
    ensures (b + 1) as int == b as int + 1
  {}

  lemma SmallByte(b: byte)
    requires b as int < 126
    ensures b <= 125
  {}

  function Min(a: nat, b: nat): nat { if a < b then a else b }

  /** The concatenation of a list of byte strings. */
  function Concat(chunks: seq<seq<byte>>): seq<byte> {
    if chunks == [] then [] else chunks[0] + Concat(chunks[1..])
  }

  lemma Assoc<T>(a: seq<T>, b: seq<T>, c: seq<T>)
    ensures a + b + c == a + (b + c)
  {}

  /** The two unfoldings every induction on a concatenation needs. */
  lemma Unfold<T>(a: seq<T>, b: seq<T>)
    ensures a == [] ==> a + b == b
    ensures a != [] ==> (a + b)[0] == a[0] && (a + b)[1..] == a[1..] + b
  {}

  lemma {:induction false} ConcatAppend(a: seq<seq<byte>>, b: seq<seq<byte>>)
    ensures Concat(a + b) == Concat(a) + Concat(b)
  {
    Unfold(a, b);
    if a == [] {
    } else {
      ConcatAppend(a[1..], b);
      Assoc(a[0], Concat(a[1..]), Concat(b));
    }
  }

  lemma ConcatSnoc(a: seq<seq<byte>>, x: seq<byte>)
    ensures Concat(a + [x]) == Concat(a) + x
  {
    ConcatAppend(a, [x]);
    assert Concat([x]) == x + Concat([]) == x;
  }

  lemma MultipleIsFar(d: int, n: int)
    requires 0 < n
    ensures d > 0 ==> d * n >= n
    ensures d < 0 ==> d * n <= -n
  {
    if d > 0 { assert (d - 1) * n >= 0; } else if d < 0 { assert (-d - 1) * n >= 0; }
  }

  /** Quotient and remainder are determined by the division equation. */
  lemma DivModUnique(x: int, n: int, q: int, r: int)
    requires 0 <= r < n && x == q * n + r
    ensures x / n == q && x % n == r
  {
    MultipleIsFar(q - x / n, n);
    assert (q - x / n) * n == x % n - r;
  }

  /** Advancing an index already reduced modulo n is advancing the full counter. */
  lemma ModAdvance(a: nat, k: nat, n: nat)
    requires 0 < n
    ensures (a % n + k) % n == (a + k) % n
  {
    var q, r := (a % n + k) / n, (a % n + k) % n;
    assert a + k == (a / n + q) * n + r;
    DivModUnique(a + k, n, a / n + q, r);
  }

  /** An index below 2n is reduced modulo n by at most one subtraction. */
  lemma ModOnce(x: nat, n: nat)
    requires x < 2 * n
    ensures x % n == if x < n then x else x - n
  {
    if x < n { DivModUnique(x, n, 0, x); } else { DivModUnique(x, n, 1, x - n); }
  }

  /** Counters less than n apart occupy different slots of a ring of n slots. */
  lemma ModDistinct(i: nat, j: nat, n: nat)
    requires i < j < i + n
    ensures i % n != j % n
  {
    MultipleIsFar(j / n - i / n, n);
    assert (j / n - i / n) * n == (j - i) - (j % n - i % n);
  }
}
