/** Node ids generated from names: a Pearson hash, and a multiplicative spread of instance numbers. */
module NodeIds {
  import opened Bytes
  import opened Utf16
  import opened Schema
  import opened PearsonTable

  // ---- the hash ----

  function Pow2(n: nat): nat {
    if n == 0 then 1 else 2 * Pow2(n - 1)
  }

  /** Exclusive or of the `n` low-order bits, one by one. */
  function XorBits(a: nat, b: nat, n: nat): (x: nat)
    ensures x < Pow2(n)
  {
    if n == 0 then 0 else (a + b) % 2 + 2 * XorBits(a / 2, b / 2, n - 1)
  }

  function Xor(a: byte, b: byte): byte {
    assert Pow2(8) == 2 * 2 * 2 * 2 * Pow2(4);
    XorBits(a, b, 8)
  }

  lemma LowBitInjective(a: nat, b: nat, x: nat)
    ensures (a + x) % 2 == (b + x) % 2 <==> a % 2 == b % 2
  {
  }

  lemma Doubled(p: nat, u: nat, q: nat, v: nat)
    requires p < 2 && q < 2
    ensures p + 2 * u == q + 2 * v <==> p == q && u == v
  {
  }

  lemma {:induction false} XorBitsInjective(a: nat, b: nat, x: nat, n: nat)
    requires a < Pow2(n) && b < Pow2(n)
    ensures XorBits(a, x, n) == XorBits(b, x, n) <==> a == b
    decreases n
  {
    if n > 0 {
      XorBitsInjective(a / 2, b / 2, x / 2, n - 1);
      LowBitInjective(a, b, x);
      Doubled((a + x) % 2, XorBits(a / 2, x / 2, n - 1), (b + x) % 2, XorBits(b / 2, x / 2, n - 1));
      Doubled(a % 2, a / 2, b % 2, b / 2);
    }
  }

  lemma {:induction false} XorBitsCommute(a: nat, b: nat, n: nat)
    ensures XorBits(a, b, n) == XorBits(b, a, n)
    decreases n
  {
    if n > 0 {
      XorBitsCommute(a / 2, b / 2, n - 1);
    }
  }

  lemma XorInjective(a: byte, b: byte, x: byte)
    ensures Xor(a, x) == Xor(b, x) <==> a == b
    ensures Xor(x, a) == Xor(x, b) <==> a == b
  {
    hide XorBits;
    assert Pow2(8) == 2 * 2 * 2 * 2 * Pow2(4);
    XorBitsInjective(a, b, x, 8);
    XorBitsCommute(x, a, 8);
    XorBitsCommute(x, b, 8);
  }

  /** Mixing the bytes of `s` into `h`. */
  function Mix(h: byte, s: seq<byte>): byte
    decreases |s|
  {
    if s == [] then h else Mix(T(Xor(h, s[0])), s[1..])
  }

  /** The `j`-th byte of the hash: the first input byte is offset by `j`, wrapping around. */
  function HashByte(p: seq<byte>, j: nat): byte
    requires p != []
  {
    Mix(T((p[0] + j) % 256), p[1..])
  }

  function PearsonHash(p: seq<byte>): (h: seq<byte>)
    requires p != []
    ensures |h| == 16 && forall j :: 0 <= j < 16 ==> h[j] == HashByte(p, j)
  {
    seq(16, j requires 0 <= j < 16 => HashByte(p, j))
  }

  method HashInPlace(p: seq<byte>) returns (hash: array<byte>)
    requires p != []
    ensures fresh(hash) && hash[..] == PearsonHash(p)
  {
    hide T, Xor;
    hash := new byte[16];
    for j := 0 to 16
      invariant forall k :: 0 <= k < j ==> hash[k] == HashByte(p, k)
    {
      var h := T((p[0] as int + j) % 256);
      for i := 1 to |p|
        invariant HashByte(p, j) == Mix(h, p[i..])
      {
        assert p[i..][0] == p[i] && p[i..][1..] == p[i + 1..];
        h := T(Xor(h, p[i]));
      }
      hash[j] := h;
    }
  }

  /** Mixing is injective in what is mixed into. */
  lemma {:induction false} MixInjective(g: byte, h: byte, s: seq<byte>)
    ensures Mix(g, s) == Mix(h, s) <==> g == h
    decreases |s|
  {
    hide T, Xor;
    if s != [] {
      XorInjective(g, h, s[0]);
      Permutation(Xor(g, s[0]), Xor(h, s[0]));
      MixInjective(T(Xor(g, s[0])), T(Xor(h, s[0])), s[1..]);
    }
  }

  lemma {:induction false} Pow2Positive(k: nat)
    ensures Pow2(k) > 0 && Pow2(k) == if k == 0 then 1 else 2 * Pow2(k - 1)
  {
    if k > 0 {
      Pow2Positive(k - 1);
    }
  }

  lemma LowBitOf(p: nat, u: nat)
    requires p < 2
    ensures (p + 2 * u) / 2 == u && (p + 2 * u) % 2 == p
  {
  }

  lemma XorStep(a: nat, b: nat, n: nat)
    requires n > 0
    ensures XorBits(a, b, n) / 2 == XorBits(a / 2, b / 2, n - 1) && XorBits(a, b, n) % 2 == (a + b) % 2
  {
    LowBitOf((a + b) % 2, XorBits(a / 2, b / 2, n - 1));
  }

  lemma LowBitSum(a: nat, b: nat)
    ensures (a + b) % 2 == (a % 2 + b % 2) % 2
  {
  }

  /** Exclusive or, bit by bit. */
  lemma {:induction false} XorBitAt(a: nat, b: nat, n: nat, k: nat)
    requires k < n
    ensures Pow2(k) > 0
    ensures (XorBits(a, b, n) / Pow2(k)) % 2 == ((a / Pow2(k)) % 2 + (b / Pow2(k)) % 2) % 2
    decreases n
  {
    hide XorBits, Pow2;
    Pow2Positive(k);
    XorStep(a, b, n);
    if k == 0 {
      LowBitSum(a, b);
    } else {
      Pow2Positive(k - 1);
      XorBitAt(a / 2, b / 2, n - 1, k - 1);
      DivideTwice(XorBits(a, b, n), 2, Pow2(k - 1));
      DivideTwice(a, 2, Pow2(k - 1));
      DivideTwice(b, 2, Pow2(k - 1));
    }
  }

  lemma {:induction false} MixAppend(h: byte, s: seq<byte>, b: byte)
    ensures Mix(h, s + [b]) == T(Xor(Mix(h, s), b))
    decreases |s|
  {
    hide T, Xor;
    if s == [] {
      assert s + [b] == [b] && [b][1..] == [];
    } else {
      MixAppend(T(Xor(h, s[0])), s[1..], b);
      assert (s + [b])[1..] == s[1..] + [b];
    }
  }

  lemma MixNothing(h: byte)
    ensures Mix(h, []) == h
  {
  }

  /** The hash, one input byte after another: the j-th byte starts from the table entry of the first byte plus j, and
      each further byte is combined with it by exclusive or and looked up again. */
  lemma HashSteps(first: byte, p: seq<byte>, b: byte, j: nat)
    requires p != []
    ensures var start := (first as int + j) % 256; HashByte([first], j) == Row(start / 16)[start % 16]
    ensures var x := Xor(HashByte(p, j), b); HashByte(p + [b], j) == Row(x / 16)[x % 16]
  {
    hide T, Xor, Row, Mix;
    assert [first][1..] == [] && Mix(T((first as int + j) % 256), []) == T((first as int + j) % 256) by {
      MixNothing(T((first as int + j) % 256));
    }
    Looked((first as int + j) % 256);
    MixAppend(T((p[0] as int + j) % 256), p[1..], b);
    assert (p + [b])[1..] == p[1..] + [b];
    Looked(Xor(HashByte(p, j), b));
  }

  /** For every input the sixteen hash bytes are pairwise distinct. */
  lemma HashBytesDistinct(p: seq<byte>, i: nat, j: nat)
    requires p != [] && i < 16 && j < 16
    ensures PearsonHash(p)[i] == PearsonHash(p)[j] <==> i == j
  {
    hide T, Xor;
    Permutation((p[0] + i) % 256, (p[0] + j) % 256);
    MixInjective(T((p[0] + i) % 256), T((p[0] + j) % 256), p[1..]);
  }

  /** Two strings of mixed-in bytes that differ in one byte never mix to the same. */
  lemma {:induction false} MixOneDiffers(h: byte, s: seq<byte>, t: seq<byte>, k: nat)
    requires |s| == |t| && k < |s| && s[k] != t[k]
    requires forall i :: 0 <= i < |s| && i != k ==> s[i] == t[i]
    ensures Mix(h, s) != Mix(h, t)
    decreases k
  {
    hide T, Xor;
    if k == 0 {
      assert s[1..] == t[1..];
      XorInjective(s[0], t[0], h);
      Permutation(Xor(h, s[0]), Xor(h, t[0]));
      MixInjective(T(Xor(h, s[0])), T(Xor(h, t[0])), s[1..]);
    } else {
      MixOneDiffers(T(Xor(h, s[0])), s[1..], t[1..], k - 1);
    }
  }

  /** Changing one byte of the input changes all sixteen bytes of the hash. */
  lemma OneByteChangesAll(p: seq<byte>, q: seq<byte>, k: nat, j: nat)
    requires |p| == |q| && k < |p| && p[k] != q[k] && j < 16
    requires forall i :: 0 <= i < |p| && i != k ==> p[i] == q[i]
    ensures PearsonHash(p)[j] != PearsonHash(q)[j]
  {
    hide T, Xor, Mix, PearsonHash;
    if k == 0 {
      assert p[1..] == q[1..];
      Permutation((p[0] + j) % 256, (q[0] + j) % 256);
      MixInjective(T((p[0] + j) % 256), T((q[0] + j) % 256), p[1..]);
    } else {
      assert forall i :: 0 <= i < |p| - 1 ==> p[1..][i] == p[i + 1] && q[1..][i] == q[i + 1];
      MixOneDiffers(T((p[0] + j) % 256), p[1..], q[1..], k - 1);
    }
  }

  // ---- names ----

  const PREFIX: seq<Rune> := [85, 84, 122, 74]     // UTzJ
  const SUFFIX: seq<Rune> := [88, 51, 105, 102]    // X3if

  /** What is hashed for a name: UTF-16 between a fixed prefix and suffix. */
  function Padded(name: seq<Rune>): (p: seq<byte>)
    ensures p != []
  {
    var u := Units(PREFIX + name + SUFFIX);
    assert PREFIX + name + SUFFIX != [];
    Pairs(u)
  }

  function NodeFromHash(h: seq<byte>): Node
    requires |h| == 16
  {
    WordBound(h[0..8]); WordBound(h[8..16]);
    Node(FromLE(h[0..8]), FromLE(h[8..16]))
  }

  function HashedId(name: seq<Rune>): Node {
    NodeFromHash(PearsonHash(Padded(name)))
  }

  lemma {:induction false} UnitsConcat(a: seq<Rune>, b: seq<Rune>)
    ensures Units(a + b) == Units(a) + Units(b)
  {
    if a == [] {
      assert a + b == b;
    } else {
      UnitsConcat(a[1..], b);
      assert (a + b)[1..] == a[1..] + b;
      Assoc(EncodeRune(a[0]), Units(a[1..]), Units(b));
    }
  }

  lemma {:induction false} PairsConcat(a: seq<u16>, b: seq<u16>)
    ensures Pairs(a + b) == Pairs(a) + Pairs(b)
  {
    if a == [] {
      assert a + b == b;
    } else {
      PairsConcat(a[1..], b);
      assert (a + b)[1..] == a[1..] + b;
      Assoc([a[0] % 256, a[0] / 256], Pairs(a[1..]), Pairs(b));
    }
  }

  lemma TwoPairs(a: byte, b: byte)
    ensures Units([a as Rune, b as Rune]) == [a as u16, b as u16]
    ensures Pairs([a as u16, b as u16]) == [a, 0, b, 0]
  {
    var s: seq<Rune> := [a as Rune, b as Rune];
    var u: seq<u16> := [a as u16, b as u16];
    assert s[1..] == [b as Rune] && s[1..][1..] == [] && u[1..] == [b as u16] && u[1..][1..] == [];
    assert Units(s[1..]) == [b as u16] + Units([]) && Pairs(u[1..]) == [b, 0] + Pairs([]);
  }

  /** Four ASCII characters as little-endian UTF-16. */
  lemma FourPairs(a: byte, b: byte, c: byte, d: byte)
    ensures Pairs(Units([a as Rune, b as Rune, c as Rune, d as Rune])) == [a, 0, b, 0, c, 0, d, 0]
  {
    hide Units, Pairs;
    UnitsConcat([a as Rune, b as Rune], [c as Rune, d as Rune]);
    TwoPairs(a, b);
    TwoPairs(c, d);
    assert [a as Rune, b as Rune] + [c as Rune, d as Rune] == [a as Rune, b as Rune, c as Rune, d as Rune];
    PairsConcat([a as u16, b as u16], [c as u16, d as u16]);
  }

  /** What is hashed: the name in little-endian UTF-16 between "UTzJ" and "X3if". */
  lemma PaddedBytes(name: seq<Rune>)
    ensures Padded(name) == [85, 0, 84, 0, 122, 0, 74, 0] + Pairs(Units(name)) + [88, 0, 51, 0, 105, 0, 102, 0]
  {
    hide Units, Pairs;
    UnitsConcat(PREFIX + name, SUFFIX);
    UnitsConcat(PREFIX, name);
    PairsConcat(Units(PREFIX) + Units(name), Units(SUFFIX));
    PairsConcat(Units(PREFIX), Units(name));
    FourPairs(85, 84, 122, 74);
    FourPairs(88, 51, 105, 102);
  }

  /** The first eight bytes of the hash are Hi, the other eight Lo. */
  lemma HashHalves(h: seq<byte>)
    requires |h| == 16
    ensures var n := NodeFromHash(h);
            && n.hi == h[0] as int + 0x100 * h[1] as int + 0x1_0000 * h[2] as int + 0x100_0000 * h[3] as int
                       + 0x1_0000_0000 * h[4] as int
                       + 0x100_0000_0000 * h[5] as int + 0x1_0000_0000_0000 * h[6] as int
                       + 0x100_0000_0000_0000 * h[7] as int
            && n.lo == h[8] as int + 0x100 * h[9] as int + 0x1_0000 * h[10] as int
                       + 0x100_0000 * h[11] as int + 0x1_0000_0000 * h[12] as int
                       + 0x100_0000_0000 * h[13] as int + 0x1_0000_0000_0000 * h[14] as int
                       + 0x100_0000_0000_0000 * h[15] as int
  {
    hide FromLE;
    EightBytes(h[0..8]);
    EightBytes(h[8..16]);
  }

  predicate Separator(r: Rune) { r == 46 || r == 95 }

  /** The last '.' or '_', or the length of the name if there is none. */
  function LastSeparator(v: seq<Rune>): (i: nat)
    ensures i <= |v| && (i < |v| ==> Separator(v[i]))
    ensures forall k :: 0 <= k < |v| && (i == |v| || k > i) ==> !Separator(v[k])
  {
    if v == [] then 0
    else if Separator(v[|v| - 1]) then |v| - 1
    else
      var i := LastSeparator(v[..|v| - 1]);
      if i == |v| - 1 then |v| else i
  }

  predicate Digit(r: Rune) { 48 <= r <= 57 }

  predicate AllDigits(s: seq<Rune>) {
    forall i :: 0 <= i < |s| ==> Digit(s[i])
  }

  function Decimal(s: seq<Rune>): nat
    requires AllDigits(s)
  {
    if s == [] then 0
    else
      var d := s[|s| - 1];
      assert Digit(d);
      10 * Decimal(s[..|s| - 1]) + (d as int - 48)
  }

  /** An unsigned 64-bit decimal number. */
  function ParseUint(s: seq<Rune>): Result<u64> {
    if s == [] then Err(Malformed)
    else if !AllDigits(s) then Err(Malformed)
    else if Decimal(s) >= 0x1_0000_0000_0000_0000 then Err(Malformed)
    else Ok(Decimal(s))
  }

  // ---- decimal notation ----

  /** `n` in decimal notation. */
  function Digits(n: nat): (s: seq<Rune>)
    ensures s != [] && forall i :: 0 <= i < |s| ==> Digit(s[i])
  {
    if n < 10 then [48 + n] else Digits(n / 10) + [48 + n % 10]
  }

  function Zeros(k: nat): (s: seq<Rune>)
    ensures |s| == k && forall i :: 0 <= i < k ==> s[i] == 48
  {
    seq(k, _ => 48)
  }

  lemma LastDigit(s: seq<Rune>, d: Rune)
    requires AllDigits(s) && Digit(d)
    ensures AllDigits(s + [d]) && Decimal(s + [d]) == 10 * Decimal(s) + (d as int - 48)
  {
    assert (s + [d])[..|s|] == s;
  }

  lemma {:induction false} ZerosDecimal(k: nat)
    ensures AllDigits(Zeros(k)) && Decimal(Zeros(k)) == 0
  {
    if k > 0 {
      ZerosDecimal(k - 1);
      LastDigit(Zeros(k - 1), 48);
      assert Zeros(k) == Zeros(k - 1) + [48];
    }
  }

  /** Decimal notation, with leading zeros or without, stands for the number. */
  lemma {:induction false} DigitsDecimal(n: nat, k: nat)
    ensures AllDigits(Zeros(k) + Digits(n)) && Decimal(Zeros(k) + Digits(n)) == n
  {
    if n < 10 {
      ZerosDecimal(k);
      LastDigit(Zeros(k), 48 + n);
    } else {
      DigitsDecimal(n / 10, k);
      LastDigit(Zeros(k) + Digits(n / 10), 48 + n % 10);
      Assoc(Zeros(k), Digits(n / 10), [48 + n % 10]);
    }
  }

  lemma OneDigit(n: nat, d: Rune)
    requires Digit(d)
    ensures Digits(10 * n + (d as int - 48)) == if n == 0 then [d] else Digits(n) + [d]
  {
  }

  lemma Unlast(s: seq<Rune>) returns (front: seq<Rune>, d: Rune)
    requires s != [] && AllDigits(s)
    ensures s == front + [d] && AllDigits(front) && Digit(d) && |front| == |s| - 1
  {
    front, d := s[..|s| - 1], s[|s| - 1];
  }

  lemma NoDigits()
    ensures Decimal([]) == 0 && Zeros(0) == []
  {
  }

  lemma OneZeroMore(k: nat)
    ensures Zeros(k) + Digits(0) == Zeros(k + 1)
  {
    assert Digits(0) == [48];
  }

  /** Every string of digits is the decimal notation of its number after some zeros. */
  lemma {:induction false} DecimalDigits(s: seq<Rune>) returns (k: nat)
    requires s != [] && AllDigits(s)
    ensures s == Zeros(k) + Digits(Decimal(s))
    decreases |s|
  {
    hide Digits, Decimal, Zeros, AllDigits, Digit;
    var front, d := Unlast(s);
    LastDigit(front, d);
    OneDigit(Decimal(front), d);
    if front == [] {
      NoDigits();
      k := 0;
      assert s == [] + [d] == [d];
    } else {
      k := DecimalDigits(front);
      if Decimal(front) == 0 {
        OneZeroMore(k);
        k := k + 1;
      } else {
        Assoc(Zeros(k), Digits(Decimal(front)), [d]);
      }
    }
  }

  lemma ParseDigitsOnly(s: seq<Rune>)
    ensures ParseUint(s).Ok? <==> s != [] && AllDigits(s) && Decimal(s) < 0x1_0000_0000_0000_0000
    ensures ParseUint(s).Ok? ==> ParseUint(s) == Ok(Decimal(s))
  {
    hide Decimal;
  }

  /** Exactly the decimal notations of `n`, with any number of leading zeros, parse to `n`. */
  lemma ParseUintExactly(s: seq<Rune>, n: u64)
    ensures ParseUint(s) == Ok(n) <==> exists k: nat {:trigger Zeros(k)} :: s == Zeros(k) + Digits(n)
  {
    hide ParseUint, Decimal, Digits, AllDigits, Zeros;
    ParseDigitsOnly(s);
    if ParseUint(s) == Ok(n) {
      var k := DecimalDigits(s);
      assert s == Zeros(k) + Digits(n);
    }
    if k: nat {:trigger Zeros(k)} :| s == Zeros(k) + Digits(n) {
      DigitsDecimal(n, k);
    }
  }

  /** Digit strings of one length that stand for one number are the same. */
  lemma {:induction false} SameDigits(s: seq<Rune>, t: seq<Rune>)
    requires |s| == |t| && AllDigits(s) && AllDigits(t) && Decimal(s) == Decimal(t)
    ensures s == t
  {
    if s != [] {
      var a, b := s[..|s| - 1], t[..|t| - 1];
      var c, d := s[|s| - 1], t[|t| - 1];
      assert s == a + [c] && t == b + [d] && Digit(c) && Digit(d);
      LastDigit(a, c);
      LastDigit(b, d);
      SameDigits(a, b);
    }
  }

  /** The 24 bits an instance number is spread to, offset by the role. The sum wraps around at 64 bits. */
  function Spread(offset: nat, instance: u64): (y: nat)
    requires offset < 0x100_0000
    ensures y < 0x100_0000
  {
    var x := ((offset + instance) % 0x1_0000_0000_0000_0000) % 0x100_0000;
    (x * 14938617) % 0x100_0000
  }

  function Offset(role: seq<Rune>): (o: nat)
    ensures o < 0x100_0000
  {
    HashedId(role).lo % 0x100_0000
  }

  /** The id of a name. Without a separator the slice of the name panics; without a number after it the id is the
      plain hash. */
  function NodeIdFromV4(v: seq<Rune>): Result<Node> {
    var id := HashedId(v);
    var i := LastSeparator(v);
    if i == |v| then Err(Panic)
    else
      match ParseUint(v[i + 1..])
      case Err(_) => Ok(id)
      case Ok(n) => Ok(Node(id.hi % 0x100_0000_0000 + Spread(Offset(v[..i]), n) * 0x100_0000_0000, id.lo))
  }

  method GenerateV4(v: seq<Rune>) returns (r: Result<Node>)
    ensures r == NodeIdFromV4(v)
  {
    hide T, Xor, PearsonHash, Padded, NodeFromHash;
    var full := HashInPlace(Padded(v));
    var id := NodeFromHash(full[..]);
    var i := LastSeparator(v);
    if i == |v| {
      return Err(Panic);
    }
    var n := ParseUint(v[i + 1..]);
    if n.Err? {
      return Ok(id);
    }
    var hi, low := id.hi, id.lo;
    var role := HashInPlace(Padded(v[..i]));
    id := NodeFromHash(role[..]);
    var y := Spread(id.lo % 0x100_0000, n.value);
    return Ok(Node(hi % 0x100_0000_0000 + y * 0x100_0000_0000, low));
  }

  // ---- the spread is a bijection ----

  lemma Residue(x: int, q: int, r: nat)
    requires r < 0x100_0000 && x == q * 0x100_0000 + r
    ensures x % 0x100_0000 == r
  {
  }

  lemma Divided(x: int) returns (q: int)
    ensures x == q * 0x100_0000 + x % 0x100_0000
  {
    q := x / 0x100_0000;
  }

  lemma Wrapped(x: nat) returns (q: nat)
    ensures x == q * 0x1_0000_0000_0000_0000 + x % 0x1_0000_0000_0000_0000
  {
    q := x / 0x1_0000_0000_0000_0000;
  }

  lemma WrapHarmless(offset: nat, n: u64)
    ensures ((offset + n) % 0x1_0000_0000_0000_0000) % 0x100_0000 == (offset + n) % 0x100_0000
  {
    var s := offset + n;
    var word := Wrapped(s);
    var q := Divided(s % 0x1_0000_0000_0000_0000);
    Residue(s, word * 0x100_0000_0000 + q, (s % 0x1_0000_0000_0000_0000) % 0x100_0000);
  }

  /** 73 undoes the multiplication: 14938617 * 73 == 65 * 2^24 + 1. */
  lemma Unspread(x: nat)
    requires x < 0x100_0000
    ensures x * 14938617 < 0x1_0000_0000_0000_0000
    ensures (((x * 14938617) % 0x100_0000) * 73) % 0x100_0000 == x
  {
    var q := Divided(x * 14938617);
    Residue(((x * 14938617) % 0x100_0000) * 73, 65 * x - 73 * q, x);
  }

  lemma Respread(y: nat)
    requires y < 0x100_0000
    ensures (((y * 73) % 0x100_0000) * 14938617) % 0x100_0000 == y
  {
    var q := Divided(y * 73);
    Residue(((y * 73) % 0x100_0000) * 14938617, 65 * y - 14938617 * q, y);
  }

  lemma ShiftResidue(offset: nat, a: nat, b: nat)
    ensures (offset + a) % 0x100_0000 == (offset + b) % 0x100_0000 <==> a % 0x100_0000 == b % 0x100_0000
  {
  }

  /** Instances of one role are spread to the same 24 bits exactly when they agree modulo 2^24; no product ever
      overflows 64 bits. */
  lemma SpreadInjective(offset: nat, a: u64, b: u64)
    requires offset < 0x100_0000
    ensures Spread(offset, a) == Spread(offset, b) <==> a % 0x100_0000 == b % 0x100_0000
    ensures (((offset + a) % 0x1_0000_0000_0000_0000) % 0x100_0000) * 14938617 < 0x1_0000_0000_0000_0000
  {
    WrapHarmless(offset, a);
    WrapHarmless(offset, b);
    Unspread((offset + a) % 0x100_0000);
    Unspread((offset + b) % 0x100_0000);
    ShiftResidue(offset, a, b);
  }

  /** Every 24-bit value is the spread of exactly one instance number below 2^24. */
  lemma SpreadOnto(offset: nat, y: nat) returns (n: u64)
    requires offset < 0x100_0000 && y < 0x100_0000
    ensures n < 0x100_0000 && Spread(offset, n) == y
  {
    var x := (y * 73) % 0x100_0000;
    n := (x - offset) % 0x100_0000;
    WrapHarmless(offset, n);
    var q := Divided(x - offset);
    Residue(offset + n, -q, x);
    Respread(y);
  }

  /** In a name that ends in a separator and digits, that separator is the last one. */
  lemma LastOf(role: seq<Rune>, sep: Rune, digits: seq<Rune>)
    requires Separator(sep) && AllDigits(digits)
    ensures var v := role + [sep] + digits;
            LastSeparator(v) == |role| && v[..|role|] == role && v[|role| + 1..] == digits
  {
    hide LastSeparator;
    var v := role + [sep] + digits;
    var i := LastSeparator(v);
    assert v[|role|] == sep;
    forall k | |role| < k < |v| ensures !Separator(v[k]) {
      assert v[k] == digits[k - |role| - 1];
    }
  }

  /** The id of such a name: the top 24 bits of Hi are the instance number added to the low 24 bits of the Lo of
      the role's hash and multiplied, modulo 2^24; the other bits are those of the hash of the whole name. */
  lemma InstanceId(role: seq<Rune>, sep: Rune, a: u64, zeros: nat)
    requires sep == 46 || sep == 95
    ensures var v := role + [sep] + (Zeros(zeros) + Digits(a));
            && NodeIdFromV4(v).Ok?
            && NodeIdFromV4(v).value.hi / 0x100_0000_0000
               == ((((HashedId(role).lo % 0x100_0000) + a) % 0x100_0000) * 14938617) % 0x100_0000
            && NodeIdFromV4(v).value.hi % 0x100_0000_0000 == HashedId(v).hi % 0x100_0000_0000
            && NodeIdFromV4(v).value.lo == HashedId(v).lo
  {
    hide HashedId, ParseUint, LastSeparator, Decimal, Digits;
    var digits := Zeros(zeros) + Digits(a);
    DigitsDecimal(a, zeros);
    ParseDigitsOnly(digits);
    LastOf(role, sep, digits);
    WrapHarmless(HashedId(role).lo % 0x100_0000, a);
  }

  /** Two names of the same role with instance numbers a and b in decimal notation: the top 24 bits of Hi are equal
      exactly when a and b agree modulo 2^24. */
  lemma InstancesSpread(role: seq<Rune>, sep: Rune, sep': Rune, a: u64, b: u64, zeros: nat, zeros': nat)
    requires (sep == 46 || sep == 95) && (sep' == 46 || sep' == 95)
    ensures var v, w := role + [sep] + (Zeros(zeros) + Digits(a)), role + [sep'] + (Zeros(zeros') + Digits(b));
            && NodeIdFromV4(v).Ok? && NodeIdFromV4(w).Ok?
            && (NodeIdFromV4(v).value.hi / 0x100_0000_0000 == NodeIdFromV4(w).value.hi / 0x100_0000_0000
                <==> a % 0x100_0000 == b % 0x100_0000)
  {
    hide HashedId, NodeIdFromV4, Digits;
    InstanceId(role, sep, a, zeros);
    InstanceId(role, sep', b, zeros');
    var offset := HashedId(role).lo % 0x100_0000;
    WrapHarmless(offset, a);
    WrapHarmless(offset, b);
    SpreadInjective(offset, a, b);
  }
}
