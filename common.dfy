/** Small shared vocabulary: optional values, fatal errors, bytes and bit rows. */
module Common {

  datatype Option<+T> = None | Some(value: T)

  /** The outcome of an operation that may abort the whole run (the tools' FError/Error). */
  datatype Fallible<+T> = Ok(value: T) | Fatal(msg: string)

  type byte = b: int | 0 <= b < 256

  /** s in the opposite order. */
  function Reverse<T>(s: seq<T>): (r: seq<T>)
    ensures |r| == |s| && forall i :: 0 <= i < |s| ==> r[i] == s[|s| - 1 - i]
  {
    seq(|s|, i requires 0 <= i < |s| => s[|s| - 1 - i])
  }

  /** Number of set bits of a bit row. */
  function Count(bits: seq<bool>): (n: nat)
    ensures n <= |bits|
  {
    if bits == [] then 0 else (if bits[0] then 1 else 0) + Count(bits[1..])
  }

  lemma {:induction false} CountAppend(a: seq<bool>, b: seq<bool>)
    ensures Count(a + b) == Count(a) + Count(b)
  {
    if a == [] {
      assert a + b == b;
    } else {
      assert (a + b)[1..] == a[1..] + b;
      CountAppend(a[1..], b);
    }
  }

  /** Clearing one set bit lowers the count by exactly one. */
  lemma {:induction false} CountClear(bits: seq<bool>, d: nat)
    requires d < |bits| && bits[d]
    ensures Count(bits[d := false]) == Count(bits) - 1
  {
    if d == 0 {
      assert bits[d := false][1..] == bits[1..];
    } else {
      assert bits[d := false][1..] == bits[1..][d - 1 := false];
      CountClear(bits[1..], d - 1);
    }
  }

  /** a is a sub-row of b: every bit set in a is set in b. */
  predicate Subset(a: seq<bool>, b: seq<bool>)
  {
    |a| == |b| && forall i :: 0 <= i < |a| ==> a[i] ==> b[i]
  }

  /** Bitwise OR of two rows of equal length. */
  function OrRows(a: seq<bool>, b: seq<bool>): (r: seq<bool>)
    requires |a| == |b|
    ensures |r| == |a|
    ensures forall i :: 0 <= i < |r| ==> (r[i] <==> a[i] || b[i])
  {
    seq(|a|, i requires 0 <= i < |a| => a[i] || b[i])
  }

  /** Bit i of a packed byte row: bit (i & 7) of byte i >> 3. */
  function RowBit(row: seq<byte>, i: nat): bool
    requires i / 8 < |row|
  {
    (row[i / 8] / Pow2(i % 8)) % 2 == 1
  }

  function Pow2(k: nat): (p: nat)
    ensures p >= 1
  {
    if k == 0 then 1 else 2 * Pow2(k - 1)
  }

  /** The quotient-remainder decomposition is unique. */
  lemma ModUnique(x: int, w: nat, q: int, r: int)
    requires w > 0 && 0 <= r < w && x == q * w + r
    ensures x % w == r
  {
    var d := q - x / w;
    assert d * w == x % w - r;
    if d >= 1 {
      MulAtLeast(d, w);
    } else if d <= -1 {
      MulAtLeast(-d, w);
    } else {
      assert d == 0;
    }
  }

  lemma {:induction false} MulAtLeast(d: int, w: nat)
    requires d >= 1
    ensures d * w >= w
    decreases d
  {
    if d > 1 {
      MulAtLeast(d - 1, w);
      assert d * w == (d - 1) * w + w;
    }
  }

  lemma NegMul(q: int, w: int)
    ensures (-q) * w == -(q * w) && (-q - 1) * w == -(q * w) - w
  {
  }

  function Mul(a: nat, b: nat): nat { a * b }

  /** Row y, column x of a w-wide array of h rows lies inside it. */
  lemma MulRowBound(w: nat, h: nat, y: nat, x: nat)
    requires y < h && x < w
    ensures Mul(w, y) + x < w * h
  {
    MulAtLeast(h - y, w);
    assert w * h == w * y + (h - y) * w;
  }
}
