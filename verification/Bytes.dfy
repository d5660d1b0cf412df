/** Bytes, little-endian words and the result type shared by every layer. */
module Bytes {

  type byte = x: int | 0 <= x < 256

  type u16 = x: int | 0 <= x < 0x1_0000
  type u32 = x: int | 0 <= x < 0x1_0000_0000
  type u64 = x: int | 0 <= x < 0x1_0000_0000_0000_0000

  type i32 = x: int | -0x8000_0000 <= x < 0x8000_0000
  type i64 = x: int | -0x8000_0000_0000_0000 <= x < 0x8000_0000_0000_0000

  /** The ways an operation of the program stops without a value. `Eof` is a read that found nothing,
      `Truncated` one that found only a part; `Panic` is a run-time panic. */
  datatype Error = Eof | Truncated | Malformed | Unsupported | Panic

  datatype Result<+T> = Ok(value: T) | Err(error: Error) {
    predicate IsFailure() { Err? }
    function PropagateFailure<U>(): Result<U> requires Err? { Err(error) }
    function Extract(): T requires Ok? { value }
  }

  /** The `w` low-order bytes of `n`, least significant first: what writing `n` cast to a w-byte word yields. */
  function LE(n: nat, w: nat): (s: seq<byte>)
    ensures |s| == w
  {
    if w == 0 then [] else [n % 256] + LE(n / 256, w - 1)
  }

  function FromLE(s: seq<byte>): nat {
    if s == [] then 0 else s[0] + 256 * FromLE(s[1..])
  }

  /** Four bytes, the least significant first. */
  lemma FourBytes(s: seq<byte>)
    requires |s| == 4
    ensures FromLE(s) == s[0] as int + 0x100 * s[1] as int + 0x1_0000 * s[2] as int + 0x100_0000 * s[3] as int
  {
    assert FromLE(s[3..]) == s[3] by { assert s[3..][1..] == []; }
    assert FromLE(s[2..]) == s[2] + 256 * FromLE(s[3..]) by { assert s[2..][1..] == s[3..]; }
    assert FromLE(s[1..]) == s[1] + 256 * FromLE(s[2..]) by { assert s[1..][1..] == s[2..]; }
  }

  /** Eight bytes, the least significant first. */
  lemma EightBytes(s: seq<byte>)
    requires |s| == 8
    ensures FromLE(s) == s[0] as int + 0x100 * s[1] as int + 0x1_0000 * s[2] as int + 0x100_0000 * s[3] as int
                         + 0x1_0000_0000 * s[4] as int + 0x100_0000_0000 * s[5] as int
                         + 0x1_0000_0000_0000 * s[6] as int + 0x100_0000_0000_0000 * s[7] as int
  {
    FourBytes(s[4..]);
    assert s[1..][1..][1..][1..] == s[4..];
    assert FromLE(s[3..]) == s[3] + 256 * FromLE(s[4..]) by { assert s[3..][1..] == s[4..]; }
    assert FromLE(s[2..]) == s[2] + 256 * FromLE(s[3..]) by { assert s[2..][1..] == s[3..]; }
    assert FromLE(s[1..]) == s[1] + 256 * FromLE(s[2..]) by { assert s[1..][1..] == s[2..]; }
  }

  function Pow256(w: nat): (r: nat)
    ensures r > 0
  {
    if w == 0 then 1 else 256 * Pow256(w - 1)
  }

  lemma {:induction false} FromLEofLE(n: nat, w: nat)
    requires n < Pow256(w)
    ensures FromLE(LE(n, w)) == n
  {
    if w > 0 {
      FromLEofLE(n / 256, w - 1);
      assert LE(n, w)[1..] == LE(n / 256, w - 1);
    }
  }

  lemma {:induction false} LEofFromLE(s: seq<byte>)
    ensures LE(FromLE(s), |s|) == s
    ensures FromLE(s) < Pow256(|s|)
  {
    if s != [] {
      LEofFromLE(s[1..]);
    }
  }

  lemma Pow256Values()
    ensures Pow256(2) == 0x1_0000 && Pow256(4) == 0x1_0000_0000 && Pow256(8) == 0x1_0000_0000_0000_0000
  {
    assert Pow256(2) == 256 * Pow256(1);
    assert Pow256(4) == 256 * 256 * Pow256(2);
    assert Pow256(6) == 256 * 256 * Pow256(4);
    assert Pow256(8) == 256 * 256 * Pow256(6);
  }

  lemma WordRoundTrip(n: nat, w: nat)
    requires (w == 2 && n < 0x1_0000) || (w == 4 && n < 0x1_0000_0000) || (w == 8 && n < 0x1_0000_0000_0000_0000)
    ensures FromLE(LE(n, w)) == n
  {
    Pow256Values();
    FromLEofLE(n, w);
  }

  lemma WordBound(s: seq<byte>)
    ensures |s| == 2 ==> FromLE(s) < 0x1_0000
    ensures |s| == 4 ==> FromLE(s) < 0x1_0000_0000
    ensures |s| == 8 ==> FromLE(s) < 0x1_0000_0000_0000_0000
  {
    Pow256Values();
    LEofFromLE(s);
  }

  lemma Assoc<T>(a: seq<T>, b: seq<T>, c: seq<T>)
    ensures a + (b + c) == a + b + c
  {
  }

  /** `e` lies in `d` at position `p`. */
  predicate At(d: seq<byte>, p: nat, e: seq<byte>) {
    p + |e| <= |d| && d[p..p + |e|] == e
  }

  lemma AtSplit(d: seq<byte>, p: nat, a: seq<byte>, b: seq<byte>)
    requires At(d, p, a + b)
    ensures At(d, p, a) && At(d, p + |a|, b)
  {
    assert (a + b)[..|a|] == a && (a + b)[|a|..] == b;
    assert d[p..p + |a|] == d[p..p + |a + b|][..|a|];
    assert d[p + |a|..p + |a| + |b|] == d[p..p + |a + b|][|a|..];
  }

  lemma AtByte(d: seq<byte>, p: nat, e: seq<byte>, k: nat)
    requires At(d, p, e) && k < |e|
    ensures d[p + k] == e[k]
  {
    assert d[p..p + |e|][k] == d[p + k];
  }

  /** The bytes of `n` are its digits to the base 256, the least significant first. */
  lemma {:induction false} ByteOf(n: nat, w: nat, k: nat)
    requires k < w
    ensures LE(n, w)[k] == (n / Pow256(k)) % 256
  {
    if k > 0 {
      ByteOf(n / 256, w - 1, k - 1);
      DivideTwice(n, 256, Pow256(k - 1));
    } else {
      assert Pow256(0) == 1;
    }
  }

  /** Dividing by one number and then by another is dividing by both at once. */
  lemma DivideTwice(x: int, a: nat, b: nat)
    requires a > 0 && b > 0
    ensures a * b > 0 && (x / a) / b == x / (a * b)
  {
    var q, r := x / a, x % a;
    var u, v := q / b, q % b;
    Product(a, b);
    assert x == a * q + r && q == b * u + v;
    Regrouped(a, b, u, v);
    Smaller(a, b, v, r);
    Quotient(x, a * b, u, a * v + r);
  }

  lemma Product(a: nat, b: nat)
    requires a > 0 && b > 0
    ensures a * b > 0
  {
  }

  lemma Regrouped(a: nat, b: nat, u: int, v: int)
    ensures a * (b * u + v) == (a * b) * u + a * v
  {
  }

  lemma Smaller(a: nat, b: nat, v: nat, r: nat)
    requires v < b && r < a
    ensures a * v + r < a * b
  {
    assert a * v <= a * (b - 1);
    assert a * (b - 1) == a * b - a;
  }

  lemma Quotient(x: int, d: nat, q: int, r: nat)
    requires r < d && x == d * q + r
    ensures x / d == q
  {
    var c, s := x / d, x % d;
    assert d * c + s == d * q + r;
    if c < q {
      Wider(d, c, q);
      assert false;
    } else if c > q {
      Wider(d, q, c);
      assert false;
    }
  }

  lemma Wider(d: nat, a: int, b: int)
    requires a < b
    ensures d * a + d <= d * b
  {
    Monotone(a + 1, b, d);
    assert (a + 1) * d == d * a + d && b * d == d * b;
  }

  lemma Monotone(a: int, b: int, d: nat)
    requires a <= b
    ensures a * d <= b * d
  {
  }
}
