/** Vocabulary shared by every module: results, fixed-width integers, byte strings, and the
    little-endian integer fields of the vault format. */
module Prelude {

  datatype Option<+T> = None | Some(value: T) {
    predicate IsFailure() { None? }

    function PropagateFailure<U>(): Option<U>
      requires None?
    {
      None
    }

    function Extract(): T
      requires Some?
    {
      value
    }
  }

  datatype Result<+T, +E> = Ok(value: T) | Err(error: E) {
    predicate IsFailure() { Err? }

    function PropagateFailure<U>(): Result<U, E>
      requires Err?
    {
      Err(error)
    }

    function Extract(): T
      requires Ok?
    {
      value
    }
  }

  const U32_LIMIT: int := 0x1_0000_0000
  const U64_LIMIT: int := 0x1_0000_0000_0000_0000

  type byte = n: int | 0 <= n < 256
  type u32 = n: int | 0 <= n < 0x1_0000_0000
  type u64 = n: int | 0 <= n < 0x1_0000_0000_0000_0000

  type Bytes = seq<byte>

  // A public key, or any other 32-byte identity.
  type Key32 = b: Bytes | |b| == 32 witness seq(32, _ => 0)

  function Pow256(k: nat): nat { if k == 0 then 1 else 256 * Pow256(k - 1) }

  lemma FieldWidths()
    ensures Pow256(1) == 256 && Pow256(2) == 65536
    ensures Pow256(4) == U32_LIMIT && Pow256(8) == U64_LIMIT
  {
    assert Pow256(3) == 256 * Pow256(2);
    assert Pow256(5) == 256 * Pow256(4);
    assert Pow256(6) == 256 * Pow256(5);
    assert Pow256(7) == 256 * Pow256(6);
  }

  /** The `k`-byte little-endian field holding `n` (the low `k` bytes of it). */
  function LE(n: nat, k: nat): (b: Bytes)
    ensures |b| == k
  {
    if k == 0 then [] else [n % 256] + LE(n / 256, k - 1)
  }

  function FromLE(b: Bytes): (n: nat)
    ensures n < Pow256(|b|)
  {
    if b == [] then 0 else b[0] + 256 * FromLE(b[1..])
  }

  lemma {:induction false} FieldRoundTrip(n: nat, k: nat)
    requires n < Pow256(k)
    ensures FromLE(LE(n, k)) == n
  {
    if k > 0 {
      FieldRoundTrip(n / 256, k - 1);
      assert LE(n, k)[1..] == LE(n / 256, k - 1);
    }
  }

  lemma {:induction false} FieldIsCanonical(b: Bytes)
    ensures LE(FromLE(b), |b|) == b
  {
    if b != [] {
      var n := FromLE(b);
      assert n % 256 == b[0] && n / 256 == FromLE(b[1..]);
      FieldIsCanonical(b[1..]);
    }
  }

  /** The bytes of a field, least significant first */
  lemma {:induction false} FieldBytes(n: nat, k: nat, i: nat)
    requires i < k
    ensures Pow256(i) > 0 && LE(n, k)[i] == n / Pow256(i) % 256
  {
    if i > 0 {
      FieldBytes(n / 256, k - 1, i - 1);
      DivideTwice(n, Pow256(i - 1));
    }
  }

  lemma DivideTwice(n: nat, p: nat)
    requires p > 0
    ensures n / 256 / p == n / (256 * p)
  {
    var m, b := n / 256, n % 256;
    var q, a := m / p, m % p;
    assert n == q * (256 * p) + (256 * a + b) by { assert m == q * p + a; assert 256 * (q * p) == q * (256 * p); }
    QuotientIs(n, 256 * p, q, 256 * a + b);
  }

  lemma QuotientIs(n: nat, d: nat, q: nat, r: nat)
    requires 0 <= r < d && n == q * d + r
    ensures n / d == q
  {
    var p, t := n / d, n % d;
    assert n == p * d + t;
    Multiples(q, p, d, t, r);
  }

  lemma Multiples(q: nat, p: nat, d: nat, t: nat, r: nat)
    requires t < d && r < d && q * d + r == p * d + t
    ensures p == q
  {
    if q > p { NextMultiple(p, q, d); }
    if p > q { NextMultiple(q, p, d); }
  }

  lemma {:induction false} NextMultiple(p: nat, q: nat, d: nat)
    requires p < q
    ensures p * d + d <= q * d
  {
    var gap := q - p - 1;
    assert q * d == (p + 1 + gap) * d == p * d + d + gap * d;
  }
}
