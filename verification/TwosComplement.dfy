/** Decimals as bytes (internal/avrojson/render.go): big-endian two's complement, as short as it can be or padded. */
module TwosComplement {
  import opened Numbers

  function Power(k: nat): (p: int)
    ensures p > 0
  {
    if k == 0 then 1 else 256 * Power(k - 1)
  }

  predicate AreBytes(s: seq<int>) {
    forall i | 0 <= i < |s| :: 0 <= s[i] < 256
  }

  /** The magnitude big-endian bytes stand for. */
  function Unsigned(s: seq<int>): int {
    if s == [] then 0 else 256 * Unsigned(s[..|s| - 1]) + s[|s| - 1]
  }

  /** What they are in two's complement: less a power when the first has its high bit. */
  function Signed(s: seq<int>): int {
    if s != [] && s[0] >= 128 then Unsigned(s) - Power(|s|) else Unsigned(s)
  }

  /** A number fits in k bytes of two's complement. */
  predicate Fits(n: int, k: nat) {
    -Power(k) <= 2 * n < Power(k)
  }

  /** The fewest bytes, one at least, it fits in. */
  function Shortest(n: int): (k: nat)
    ensures k > 0
    decreases if n < 0 then -n else n
  {
    if -128 <= n < 128 then 1 else 1 + Shortest(n / 256)
  }

  lemma HalfFits(n: int, q: int, p: int)
    requires 0 <= n - 256 * q < 256 && p % 2 == 0
    ensures -(256 * p) <= 2 * n < 256 * p <==> -p <= 2 * q < p
  {
  }

  lemma FewerFit(n: int, k: nat)
    requires k > 1
    ensures Fits(n, k) <==> Fits(n / 256, k - 1)
  {
    var p := 256 * Power(k - 2);
    assert Power(k - 1) == p;
    HalfFits(n, n / 256, p);
  }

  lemma {:induction false} FitsWhenShortest(n: int, k: nat)
    requires k > 0
    ensures Fits(n, k) <==> Shortest(n) <= k
    decreases k
  {
    if k > 1 {
      FewerFit(n, k);
      FitsWhenShortest(n / 256, k - 1);
    } else {
      assert Power(1) == 256 * Power(0);
    }
  }

  /** The bytes of a magnitude, without zeros before them. */
  function BytesOf(n: nat): (s: seq<int>)
    ensures AreBytes(s) && (s != [] ==> s[0] > 0)
  {
    if n == 0 then [] else BytesOf(n / 256) + [n % 256]
  }

  lemma {:induction false} UnsignedBytesOf(n: nat)
    ensures Unsigned(BytesOf(n)) == n
  {
    if n > 0 { UnsignedBytesOf(n / 256); }
  }

  lemma {:induction false} UnsignedFront(d: int, s: seq<int>)
    ensures Unsigned([d] + s) == d * Power(|s|) + Unsigned(s)
  {
    if s == [] {
      assert ([d] + s)[..0] == [];
    } else {
      var t := s[..|s| - 1];
      assert ([d] + s)[..|s|] == [d] + t;
      UnsignedFront(d, t);
      Times256(d, Power(|t|));
    }
  }

  lemma Times256(d: int, p: int)
    ensures 256 * (d * p) == d * (256 * p)
  {
  }

  function Inverted(s: seq<int>): (r: seq<int>)
    ensures |r| == |s|
  {
    seq(|s|, i requires 0 <= i < |s| => 255 - s[i])
  }

  lemma {:induction false} UnsignedInverted(s: seq<int>)
    ensures Unsigned(Inverted(s)) == Power(|s|) - 1 - Unsigned(s)
  {
    if s != [] {
      var t := s[..|s| - 1];
      assert Inverted(s)[..|s| - 1] == Inverted(t);
      UnsignedInverted(t);
    }
  }

  /** A byte of the sign before the others changes nothing. */
  lemma SignExtends(d: int, s: seq<int>)
    requires AreBytes(s) && (d == 0 || d == 255)
    requires if d == 0 then s == [] || s[0] < 128 else s == [] || s[0] >= 128
    ensures s != [] ==> Signed([d] + s) == Signed(s)
  {
    UnsignedFront(d, s);
  }

  lemma SignedMore(s: seq<int>, d: int)
    requires s != []
    ensures Signed(s + [d]) == 256 * Signed(s) + d
  {
    assert (s + [d])[..|s|] == s;
  }

  /** No byte is there for nothing: the first is not all sign before another of that sign. */
  predicate Minimal(s: seq<int>) {
    s != [] && (|s| > 1 ==> !(s[0] == 0 && s[1] < 128) && !(s[0] == 255 && s[1] >= 128))
  }

  lemma {:induction false} MinimalIsShortest(s: seq<int>)
    requires AreBytes(s) && Minimal(s)
    ensures |s| == Shortest(Signed(s))
  {
    if |s| == 1 {
      assert Unsigned(s[..0]) == 0 && Power(1) == 256 * Power(0);
    } else {
      var t, d := s[..|s| - 1], s[|s| - 1];
      assert s == t + [d];
      SignedMore(t, d);
      assert Signed(s) / 256 == Signed(t);
      if |s| == 2 {
        assert Unsigned(t[..0]) == 0 && Power(1) == 256 * Power(0);
      }
      MinimalIsShortest(t);
    }
  }

  function Max(a: nat, b: nat): nat {
    if a < b then b else a
  }

  /** Bytes with a byte of the sign before them, where their own first does not show it. */
  function WithSign(sign: int, s: seq<int>): seq<int> {
    if s == [] || (s[0] >= 128) != (sign >= 128) then [sign] + s else s
  }

  lemma PositiveBytes(n: nat)
    ensures var b := WithSign(0, BytesOf(n)); AreBytes(b) && Minimal(b) && Signed(b) == n && b[0] < 128
  {
    UnsignedBytesOf(n);
    UnsignedFront(0, BytesOf(n));
  }

  lemma NegativeBytes(n: nat)
    ensures var b := WithSign(255, Inverted(BytesOf(n)));
      AreBytes(b) && Minimal(b) && Signed(b) + n + 1 == 0 && b[0] >= 128
  {
    var s := BytesOf(n);
    UnsignedBytesOf(n);
    UnsignedInverted(s);
    InvertedBytes(s);
    NegativeSign(Inverted(s), n);
    NegativeMinimal(Inverted(s));
  }

  lemma InvertedBytes(s: seq<int>)
    requires AreBytes(s) && (s != [] ==> s[0] > 0)
    ensures AreBytes(Inverted(s)) && (s != [] ==> Inverted(s)[0] < 255)
  {}

  lemma NegativeMinimal(s: seq<int>)
    requires AreBytes(s) && (s != [] ==> s[0] < 255)
    ensures var b := WithSign(255, s); AreBytes(b) && Minimal(b) && b[0] >= 128
  {}

  lemma NegativeSign(s: seq<int>, n: nat)
    requires AreBytes(s) && Unsigned(s) + n + 1 == Power(|s|)
    ensures Signed(WithSign(255, s)) + n + 1 == 0
  {
    UnsignedFront(255, s);
    assert Power(|[255] + s|) == 256 * Power(|s|);
  }

  method Invert(m: array<int>)
    modifies m
    ensures m[..] == Inverted(old(m[..]))
  {
    ghost var was := m[..];
    for i := 0 to m.Length
      invariant forall j | 0 <= j < i :: m[j] == 255 - was[j]
      invariant forall j | i <= j < m.Length :: m[j] == was[j]
    {
      m[i] := 255 - m[i];
    }
  }

  /** The bytes of a number, of any size, are that number in two's complement, and as many as it takes or the size. */
  method TwosComplement(n: int, size: nat) returns (b: seq<int>)
    ensures AreBytes(b) && Signed(b) == n && |b| == Max(size, Shortest(n))
  {
    if n >= 0 {
      b := BytesOf(n);
      if |b| == 0 || b[0] >= 128 { b := [0] + b; }
      assert b == WithSign(0, BytesOf(n));
      PositiveBytes(n);
    } else {
      var s := BytesOf(-n - 1);
      var m := new int[|s|](i requires 0 <= i < |s| => s[i]);
      assert m[..] == s;
      Invert(m);
      b := m[..];
      if |b| == 0 || b[0] < 128 { b := [255] + b; }
      assert b == WithSign(255, Inverted(s));
      NegativeBytes(-n - 1);
    }
    MinimalIsShortest(b);
    b := Pad(b, n < 0, size);
  }

  method Pad(s: seq<int>, negative: bool, size: nat) returns (b: seq<int>)
    requires AreBytes(s) && s != [] && (s[0] >= 128 <==> negative)
    ensures AreBytes(b) && Signed(b) == Signed(s) && |b| == Max(size, |s|)
  {
    b := s;
    while |b| < size
      invariant AreBytes(b) && b != [] && Signed(b) == Signed(s) && (b[0] >= 128 <==> negative)
      invariant |b| == |s| || |s| < |b| <= size
      decreases size - |b|
    {
      var pad := if negative then 255 else 0;
      SignExtends(pad, b);
      b := [pad] + b;
    }
  }

  // ---------------------------------------------------------------- decimals

  function Ten(k: nat): (p: int)
    ensures p > 0
  {
    if k == 0 then 1 else 10 * Ten(k - 1)
  }

  /** Division toward zero. */
  function Quo(a: int, b: int): int
    requires b > 0
  {
    if a >= 0 then a / b else -(-a / b)
  }

  /** A decimal's unscaled value: its numerator and denominator, at a scale, what is below it dropped. */
  function Unscaled(num: int, den: int, scale: nat): int
    requires den > 0
  {
    Quo(num * Ten(scale), den)
  }

  /** It is the decimal exactly when the scale holds it, and else the nearest to it toward zero. */
  lemma UnscaledNearest(num: int, den: int, scale: nat)
    requires den > 0
    ensures var u, x := Unscaled(num, den, scale), num * Ten(scale);
      (u * den == x <==> x % den == 0)
      && if num >= 0 then 0 <= u && u * den <= x < (u + 1) * den else u <= 0 && (u - 1) * den < x <= u * den
  {
    var x := num * Ten(scale);
    assert num >= 0 ==> x >= 0;
    assert num < 0 ==> x < 0;
    QuoNearest(x, den);
  }

  lemma QuoNearest(x: int, den: int)
    requires den > 0
    ensures var u := Quo(x, den);
      (u * den == x <==> x % den == 0)
      && if x >= 0 then 0 <= u && u * den <= x < (u + 1) * den else u <= 0 && (u - 1) * den < x <= u * den
  {
    var a := if x >= 0 then x else -x;
    var q, r := Divide(a, den);
    Quotient(a, den, q, r);
    assert (q + 1) * den == q * den + den && (-q) * den == -(q * den) && (-q - 1) * den == -(q * den) - den;
    if x < 0 { NegatedRemainder(x, den); }
  }

  lemma NegatedRemainder(x: int, d: int)
    requires d > 0
    ensures x % d == 0 <==> -x % d == 0
  {
    assert x == x / d * d + x % d && -x == -x / d * d + -x % d;
    if x % d == 0 { Quotient(-x, d, -(x / d), 0); }
    if -x % d == 0 { Quotient(x, d, -(-x / d), 0); }
  }
}
