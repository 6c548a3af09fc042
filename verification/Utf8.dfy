/** UTF-8 as RFC 3629 defines it (section 3 for the encoding, section 4 for well-formed sequences).
    A Dafny `char` is a Unicode scalar value. */
module Utf8 {
  import opened Prelude

  function Encode(c: char): (b: Bytes)
    ensures 1 <= |b| <= 4
  {
    var n := c as int;
    if n < 0x80 then [n]
    else if n < 0x800 then [0xC0 + n / 64, 0x80 + n % 64]
    else if n < 0x1_0000 then [0xE0 + n / 4096, 0x80 + n / 64 % 64, 0x80 + n % 64]
    else [0xF0 + n / 262144, 0x80 + n / 4096 % 64, 0x80 + n / 64 % 64, 0x80 + n % 64]
  }

  function EncodeAll(s: string): Bytes {
    if s == [] then [] else Encode(s[0]) + EncodeAll(s[1..])
  }

  // Examples from section 7 of RFC 3629: one-, two- and three-byte sequences, and a four-byte one
  lemma SectionSevenExamples()
    ensures EncodeAll("A\U{2262}\U{0391}.") == [0x41, 0xE2, 0x89, 0xA2, 0xCE, 0x91, 0x2E]
    ensures Encode('\U{233B4}') == [0xF0, 0xA3, 0x8E, 0xB4]
  {
    var s := "A\U{2262}\U{0391}.";
    assert s[1..][1..] == s[2..] && s[2..][1..] == s[3..] && s[3..][1..] == [];
    assert EncodeAll(s[3..]) == [0x2E];
    assert EncodeAll(s[2..]) == [0xCE, 0x91, 0x2E];
    assert EncodeAll(s[1..]) == [0xE2, 0x89, 0xA2, 0xCE, 0x91, 0x2E];
  }

  predicate Continuation(b: byte) { 0x80 <= b <= 0xBF }

  // How many bytes a sequence starting with this byte has; 0 for a byte that starts none
  function LeadLength(first: byte): nat {
    if first < 0x80 then 1
    else if 0xC2 <= first <= 0xDF then 2
    else if 0xE0 <= first <= 0xEF then 3
    else if 0xF0 <= first <= 0xF4 then 4
    else 0
  }

  function Number(b: Bytes): int
    requires 1 <= |b| <= 4
  {
    var first: int := b[0];
    var tail := (i: int) => if 0 <= i < |b| then b[i] as int - 0x80 else 0;
    if |b| == 1 then first
    else if |b| == 2 then (first - 0xC0) * 64 + tail(1)
    else if |b| == 3 then (first - 0xE0) * 4096 + tail(1) * 64 + tail(2)
    else (first - 0xF0) * 262144 + tail(1) * 4096 + tail(2) * 64 + tail(3)
  }

  // The ranges of the second byte that rule out overlong forms, surrogates and values past U+10FFFF
  predicate SecondByteOk(first: byte, second: byte) {
    && Continuation(second)
    && (first == 0xE0 ==> second >= 0xA0)
    && (first == 0xED ==> second <= 0x9F)
    && (first == 0xF0 ==> second >= 0x90)
    && (first == 0xF4 ==> second <= 0x8F)
  }

  /** One well-formed sequence, by the table of section 4. */
  predicate WellFormedOne(b: Bytes) {
    && b != [] && |b| == LeadLength(b[0])
    && (|b| > 1 ==> SecondByteOk(b[0], b[1]))
    && (|b| > 2 ==> Continuation(b[2]))
    && (|b| > 3 ==> Continuation(b[3]))
  }

  predicate IsScalar(n: int) { 0 <= n < 0xD800 || 0xE000 <= n < 0x11_0000 }

  // Six-bit digits and the number they make
  lemma Digits(p: int, q: int, r: int, t: int)
    requires 0 <= q < 64 && 0 <= r < 64 && 0 <= t < 64
    ensures var n := p * 262144 + q * 4096 + r * 64 + t;
      n / 262144 == p && n / 4096 == p * 64 + q && n / 4096 % 64 == q && n / 64 % 64 == r && n % 64 == t
      && n / 64 == p * 4096 + q * 64 + r
  {
    var c := p * 64 + q;
    var b := c * 64 + r;
    var n := b * 64 + t;
    assert n == p * 262144 + q * 4096 + r * 64 + t;
    LastDigit(b, t);
    LastDigit(c, r);
    LastDigit(p, q);
    assert n / 4096 == b / 64 && n / 262144 == c / 64;
  }

  lemma LastDigit(n: int, t: int)
    requires 0 <= t < 64
    ensures (n * 64 + t) / 64 == n && (n * 64 + t) % 64 == t
  {
  }

  lemma TwoBytes(b: Bytes)
    requires |b| == 2 && WellFormedOne(b)
    ensures IsScalar(Number(b)) && Encode(Number(b) as char) == b
  {
    Digits(0, 0, b[0] - 0xC0, b[1] - 0x80);
  }

  lemma ThreeBytes(b: Bytes)
    requires |b| == 3 && WellFormedOne(b)
    ensures IsScalar(Number(b)) && Encode(Number(b) as char) == b
  {
    Digits(0, b[0] - 0xE0, b[1] - 0x80, b[2] - 0x80);
  }

  lemma FourBytes(b: Bytes)
    requires |b| == 4 && WellFormedOne(b)
    ensures IsScalar(Number(b)) && Encode(Number(b) as char) == b
  {
    Digits(b[0] - 0xF0, b[1] - 0x80, b[2] - 0x80, b[3] - 0x80);
  }

  lemma WellFormedIsScalar(b: Bytes)
    requires WellFormedOne(b)
    ensures IsScalar(Number(b))
    ensures Encode(Number(b) as char) == b
  {
    if |b| == 2 {
      TwoBytes(b);
    } else if |b| == 3 {
      ThreeBytes(b);
    } else if |b| == 4 {
      FourBytes(b);
    }
  }

  lemma EncodedIsWellFormed(c: char)
    ensures WellFormedOne(Encode(c)) && Number(Encode(c)) == c as int
  {
    var n := c as int;
    var p, q, r, t := n / 262144, n / 4096 % 64, n / 64 % 64, n % 64;
    Digits(p, q, r, t);
    assert n == p * 262144 + q * 4096 + r * 64 + t;
    EncodedDigits(c, p, q, r, t);
  }

  lemma EncodedDigits(c: char, p: int, q: int, r: int, t: int)
    requires 0 <= q < 64 && 0 <= r < 64 && 0 <= t < 64 && c as int == p * 262144 + q * 4096 + r * 64 + t
    requires var n := c as int;
      n / 262144 == p && n / 4096 == p * 64 + q && n / 4096 % 64 == q && n / 64 % 64 == r && n % 64 == t
      && n / 64 == p * 4096 + q * 64 + r
    ensures WellFormedOne(Encode(c)) && Number(Encode(c)) == c as int
  {
    var n := c as int;
    var b := Encode(c);
    if 0x80 <= n < 0x800 {
      assert p == 0 && q == 0 && 2 <= r < 32;
      assert b == [0xC0 + r, 0x80 + t];
    } else if 0x800 <= n < 0x1_0000 {
      assert p == 0 && q < 16 && (q == 0 ==> r >= 32) && (q == 13 ==> r < 32);
      assert b == [0xE0 + q, 0x80 + r, 0x80 + t];
    } else if 0x1_0000 <= n {
      assert 0 <= p <= 4 && (p == 0 ==> q >= 16) && (p == 4 ==> q < 16);
      assert b == [0xF0 + p, 0x80 + q, 0x80 + r, 0x80 + t];
    }
  }

  /** The first character of a byte string and its length; the reader of one sequence. */
  function DecodeFirst(b: Bytes): (r: Option<(char, nat)>)
    ensures r.Some? ==> 1 <= r.value.1 <= |b| && r.value.1 <= 4 && b[..r.value.1] == Encode(r.value.0)
  {
    if b == [] then None
    else
      var n := LeadLength(b[0]);
      if n == 0 || n > |b| || !WellFormedOne(b[..n]) then None
      else
        WellFormedIsScalar(b[..n]);
        Some((Number(b[..n]) as char, n))
  }

  lemma DecodeEncoded(c: char, rest: Bytes)
    ensures DecodeFirst(Encode(c) + rest) == Some((c, |Encode(c)|))
  {
    EncodedIsWellFormed(c);
    assert (Encode(c) + rest)[..|Encode(c)|] == Encode(c);
  }

  /** `str::from_utf8`: the text of a byte string, if it is well-formed. */
  function Decode(b: Bytes): (r: Option<string>)
    ensures r.Some? ==> EncodeAll(r.value) == b
  {
    if b == [] then Some([])
    else
      match DecodeFirst(b)
      case None => None
      case Some((c, n)) =>
        match Decode(b[n..])
        case None => None
        case Some(s) => DecodedMore(b, c, n, s); Some([c] + s)
  }

  lemma DecodedMore(b: Bytes, c: char, n: nat, s: string)
    requires DecodeFirst(b) == Some((c, n)) && EncodeAll(s) == b[n..]
    ensures EncodeAll([c] + s) == b
  {
    hide Encode;
    assert ([c] + s)[1..] == s && b == b[..n] + b[n..];
  }

  /** Encoding then decoding gives the text back; with the contract of `Decode`, the byte strings that
      decode are exactly the encodings of texts, and no two texts share one. */
  lemma {:induction false} DecodeEncodeAll(s: string)
    ensures Decode(EncodeAll(s)) == Some(s)
  {
    hide Encode, DecodeFirst;
    if s != [] {
      DecodeEncoded(s[0], EncodeAll(s[1..]));
      DecodeEncodeAll(s[1..]);
      assert EncodeAll(s)[|Encode(s[0])|..] == EncodeAll(s[1..]);
      assert [s[0]] + s[1..] == s;
    }
  }

  lemma {:induction false} EncodeAppend(s: string, t: string)
    ensures EncodeAll(s + t) == EncodeAll(s) + EncodeAll(t)
  {
    hide Encode;
    if s == [] {
      assert s + t == t;
    } else {
      assert (s + t)[1..] == s[1..] + t;
      EncodeAppend(s[1..], t);
    }
  }

  lemma EncodeOne(c: char)
    ensures EncodeAll([c]) == Encode(c)
  {
    hide Encode;
    assert [c][1..] == [];
  }

  // How many bytes the last character of a well-formed string takes, found by walking back
  function LastLength(b: Bytes): (n: nat)
    ensures n <= |b|
  {
    if b == [] then 0
    else if Continuation(b[|b| - 1]) then 1 + LastLength(b[..|b| - 1])
    else 1
  }

  lemma LastOfEncoded(x: Bytes, c: char)
    ensures LastLength(x + Encode(c)) == |Encode(c)|
  {
    EncodedIsWellFormed(c);
    var e := Encode(c);
    assert !Continuation(e[0]) && forall k :: 1 <= k < |e| ==> Continuation(e[k]);
    WalkBack(x, e, |e|);
    assert e[..|e|] == e;
  }

  lemma {:induction false} WalkBack(x: Bytes, e: Bytes, k: nat)
    requires 1 <= k <= |e| && !Continuation(e[0]) && forall j :: 1 <= j < |e| ==> Continuation(e[j])
    ensures LastLength(x + e[..k]) == k
  {
    if k > 1 {
      WalkBack(x, e, k - 1);
      assert (x + e[..k])[..|x| + k - 1] == x + e[..k - 1];
    }
  }
}
