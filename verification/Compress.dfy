/** The compressed integer code: big-endian groups of seven bits in two's complement, every byte but the last
    carrying a continuation bit. */
module Compress {
  import opened Bytes

  /** The byte widths the codec compresses at. */
  type Width = w: int | w == 2 || w == 4 || w == 8 witness 2

  /** Half the number of values of `w` bytes. */
  function Half(w: Width): int {
    if w == 2 then 0x8000 else if w == 4 then 0x8000_0000 else 0x8000_0000_0000_0000
  }

  predicate InRange(signed: bool, w: Width, v: int) {
    if signed then -Half(w) <= v < Half(w) else 0 <= v < 2 * Half(w)
  }

  /** A conversion to the integer type of width `w`: it keeps the low-order bits, so it
      changes only a value that does not fit. */
  function Truncate(signed: bool, w: Width, v: int): (r: int)
    ensures InRange(signed, w, r)
  {
    if InRange(signed, w, v) then v
    else if w == 2 then if signed then (v + 0x8000) % 0x1_0000 - 0x8000 else v % 0x1_0000
    else if w == 4 then if signed then (v + 0x8000_0000) % 0x1_0000_0000 - 0x8000_0000 else v % 0x1_0000_0000
    else if signed then (v + 0x8000_0000_0000_0000) % 0x1_0000_0000_0000_0000 - 0x8000_0000_0000_0000
         else v % 0x1_0000_0000_0000_0000
  }

  /** The most bytes a value of `w` bytes may take: (w*8 + 6) / 7. */
  function MaxBytes(w: Width): nat {
    if w == 2 then 3 else if w == 4 then 5 else 10
  }

  // ---- the code as a function of the value ----

  /** Seven-bit groups of `v`; `cont` is the continuation bit of the last byte. */
  function Groups(v: int, cont: byte): (s: seq<byte>)
    requires cont == 0 || cont == 128
    ensures |s| > 0
    decreases if v < 0 then -v else v
  {
    if -64 <= v < 64 then [v % 128 + cont] else Groups(v / 128, 128) + [v % 128 + cont]
  }

  /** Zero takes no byte at all; the callers write an "empty" tag instead. */
  function Compressed(v: int): seq<byte> {
    if v == 0 then [] else Groups(v, 0)
  }

  // ---- the value as a function of the code ----

  function Init(b: byte): int {
    if (b / 64) % 2 == 1 then -1 else 0
  }

  function Fold(init: int, s: seq<byte>): int {
    if s == [] then init else Fold(init, s[..|s| - 1]) * 128 + s[|s| - 1] % 128
  }

  /** The two's complement number a non-empty byte string stands for, before it is fitted into 64 bits. */
  function Val(s: seq<byte>): int
    requires s != []
  {
    Fold(Init(s[0]), s)
  }

  function Wrap(signed: bool, v: int): int {
    Truncate(signed, 8, v)
  }

  /** Where the code starting at `p` stops: its first byte without a continuation bit, sought in `n` bytes. */
  function Stop(d: seq<byte>, p: nat, n: nat): (r: Result<nat>)
    ensures r.Ok? ==> p <= r.value < p + n && r.value < |d| && d[r.value] < 128
    ensures r.Ok? ==> forall i :: p <= i < r.value ==> d[i] >= 128
    ensures r.Err? ==> forall i :: p <= i < p + n && i < |d| ==> d[i] >= 128
    ensures r.Err? ==> r.error == if p + n <= |d| then Malformed else Eof
    decreases n
  {
    if n == 0 then Err(if p <= |d| then Malformed else Eof)
    else if p >= |d| then Err(Eof)
    else if d[p] < 128 then Ok(p)
    else Stop(d, p + 1, n - 1)
  }

  /** Reading a compressed integer of width `w` at `p`: its value and the position after it. */
  function ReadAt(signed: bool, w: Width, d: seq<byte>, p: nat): (r: Result<(int, nat)>)
    ensures r.Ok? ==> InRange(signed, 8, r.value.0) && p < r.value.1 <= |d|
  {
    var last :- Stop(d, p, MaxBytes(w));
    Ok((Wrap(signed, Val(d[p..last + 1])), last + 1))
  }

  // ---- the code is read back ----

  function Pow128(n: nat): (r: nat)
    ensures r > 0
  {
    if n == 0 then 1 else 128 * Pow128(n - 1)
  }

  /** Appending a byte appends its group. */
  lemma NextGroup(s: seq<byte>, b: byte)
    requires s != []
    ensures Val(s + [b]) == Val(s) * 128 + b % 128
  {
    hide Init;
    assert (s + [b])[..|s|] == s;
  }

  lemma LowBits(v: int, cont: byte)
    requires cont == 0 || cont == 128
    ensures v / 128 * 128 + (v % 128 + cont) % 128 == v
  {
  }

  lemma OneGroup(v: int, cont: byte)
    requires -64 <= v < 64 && (cont == 0 || cont == 128)
    ensures var b := v % 128 + cont; Init(b) * 128 + b % 128 == v
  {
    assert v % 128 == if v < 0 then v + 128 else v;
  }

  lemma OneGroupValue(v: int, cont: byte)
    requires -64 <= v < 64 && (cont == 0 || cont == 128)
    ensures Val([v % 128 + cont]) == v
  {
    hide Init;
    var s: seq<byte> := [v % 128 + cont];
    OneGroup(v, cont);
    assert s[..0] == [];
    assert Fold(Init(s[0]), s) == Init(s[0]) * 128 + s[0] % 128;
  }

  lemma {:induction false} GroupsValue(v: int, cont: byte)
    requires cont == 0 || cont == 128
    ensures Val(Groups(v, cont)) == v
    decreases if v < 0 then -v else v
  {
    hide Val, Fold, Init;
    if -64 <= v < 64 {
      OneGroupValue(v, cont);
    } else {
      GroupsValue(v / 128, 128);
      NextGroup(Groups(v / 128, 128), v % 128 + cont);
      LowBits(v, cont);
    }
  }

  /** Every byte but the last has the continuation bit, the last has not. */
  lemma {:induction false} GroupsContinue(v: int, cont: byte)
    requires cont == 0 || cont == 128
    ensures var s := Groups(v, cont);
            (s[|s| - 1] >= 128 <==> cont == 128) && forall i :: 0 <= i < |s| - 1 ==> s[i] >= 128
    decreases if v < 0 then -v else v
  {
    if !(-64 <= v < 64) {
      GroupsContinue(v / 128, 128);
    }
  }

  /** `v` takes at most `n` bytes exactly when it is an n-group two's complement number. */
  lemma {:induction false} GroupsLength(v: int, cont: byte, n: nat)
    requires cont == 0 || cont == 128
    requires n > 0
    ensures |Groups(v, cont)| <= n <==> -64 * Pow128(n - 1) <= v < 64 * Pow128(n - 1)
    decreases n
  {
    if n == 1 {
      assert Pow128(0) == 1;
    } else {
      GroupsLength(v / 128, 128, n - 1);
      assert Pow128(n - 1) == 128 * Pow128(n - 2);
      assert Pow128(n - 1) >= 128;
    }
  }

  /** The code of a value of width `w` fits the buffer the encoder reserves for it. */
  lemma FitsBuffer(signed: bool, w: Width, v: int)
    requires InRange(signed, w, v)
    ensures |Groups(v, 0)| <= MaxBytes(w)
  {
    GroupsLength(v, 0, MaxBytes(w));
    assert Pow128(2) == 0x4000;
    assert Pow128(4) == 128 * 128 * Pow128(2);
    assert Pow128(6) == 128 * 128 * Pow128(4);
    assert Pow128(9) == 128 * 128 * 128 * Pow128(6);
  }

  /** No byte from `p` up to `q` ends a code. */
  predicate Continued(d: seq<byte>, p: nat, q: nat) {
    forall i :: p <= i < q && i < |d| ==> d[i] >= 128
  }

  lemma {:induction false} StopAt(d: seq<byte>, p: nat, n: nat, last: nat)
    requires p <= last < p + n && last < |d| && d[last] < 128 && Continued(d, p, last)
    ensures Stop(d, p, n) == Ok(last)
  {
  }

  /** The last byte of `s` is the only one without a continuation bit. */
  predicate Ends(s: seq<byte>) {
    s != [] && s[|s| - 1] < 128 && forall i :: 0 <= i < |s| - 1 ==> s[i] >= 128
  }

  /** A code lying in `d` at `p` is where the reader stops and what it folds. */
  lemma CodeStops(s: seq<byte>, d: seq<byte>, p: nat, n: nat)
    requires Ends(s) && At(d, p, s) && |s| <= n
    ensures Stop(d, p, n) == Ok(p + |s| - 1) && d[p..p + |s|] == s
  {
    forall i | p <= i < p + |s| ensures d[i] == s[i - p] {
      AtByte(d, p, s, i - p);
    }
    StopAt(d, p, n, p + |s| - 1);
  }

  lemma CodeRead(signed: bool, w: Width, s: seq<byte>, v: int, d: seq<byte>, p: nat)
    requires Ends(s) && Val(s) == v && InRange(signed, 8, v)
    requires At(d, p, s) && |s| <= MaxBytes(w)
    ensures ReadAt(signed, w, d, p) == Ok((v, p + |s|))
  {
    CodeStops(s, d, p, MaxBytes(w));
  }

  lemma CodeShape(v: int)
    requires v != 0
    ensures Ends(Compressed(v)) && Val(Compressed(v)) == v
  {
    GroupsContinue(v, 0);
    GroupsValue(v, 0);
  }

  /** Compressed integers round trip: written at width `w`, read at any width at least `w`, whatever surrounds
      the code; the cursor ends exactly after it. */
  lemma RoundTrip(signed: bool, w: Width, wider: Width, v: int, d: seq<byte>, p: nat)
    requires InRange(signed, w, v) && v != 0 && w <= wider
    requires At(d, p, Compressed(v))
    ensures ReadAt(signed, wider, d, p) == Ok((v, p + |Compressed(v)|))
  {
    FitsBuffer(signed, w, v);
    CodeShape(v);
    CodeRead(signed, wider, Compressed(v), v, d, p);
  }

  /** The code is prefix-free: what follows a code never changes how it is read. */
  lemma PrefixFree(u: int, v: int, x: seq<byte>, y: seq<byte>)
    requires Groups(u, 0) + x == Groups(v, 0) + y
    ensures u == v && x == y
  {
    var s, t := Groups(u, 0), Groups(v, 0);
    var d, n := s + x, |s| + |t|;
    assert d == t + y;
    assert At(d, 0, s) && At(d, 0, t);
    GroupsContinue(u, 0);
    GroupsContinue(v, 0);
    CodeStops(s, d, 0, n);
    CodeStops(t, d, 0, n);
    GroupsValue(u, 0);
    GroupsValue(v, 0);
    assert x == d[|s|..] && y == d[|t|..];
  }

  /** The k-th byte of a code from its end holds the k-th group of seven bits. */
  lemma {:induction false} GroupAt(v: int, cont: byte, k: nat)
    requires (cont == 0 || cont == 128) && k < |Groups(v, cont)|
    ensures var s := Groups(v, cont);
            s[|s| - 1 - k] == (v / Pow128(k)) % 128 + if k == 0 then cont else 128
    decreases k
  {
    if k == 0 {
      assert Pow128(0) == 1;
    } else {
      GroupAt(v / 128, 128, k - 1);
      DivideTwice(v, 128, Pow128(k - 1));
    }
  }

  /** The bytes of a compressed integer: big-endian groups of seven bits, the last without the high bit. With
      GroupsLength, which says how many there are, this is the whole code. */
  lemma CodeBytes(v: int, k: nat)
    requires k < |Compressed(v)|
    ensures var s := Compressed(v);
            s[|s| - 1 - k] == (v / Pow128(k)) % 128 + if k == 0 then 0 else 128
  {
    GroupAt(v, 0, k);
  }

  // ---- arbitrary input ----

  /** Continuing a fold from what the first byte gives. */
  lemma {:induction false} FoldHead(init: int, s: seq<byte>)
    requires s != []
    ensures Fold(init, s) == Fold(init * 128 + s[0] % 128, s[1..])
  {
    if |s| == 1 {
      assert s[..0] == [] && s[1..] == [];
    } else {
      FoldHead(init, s[..|s| - 1]);
      assert s[..|s| - 1][1..] == s[1..][..|s| - 2];
    }
  }

  lemma {:induction false} FoldShift(c: int, s: seq<byte>)
    ensures c * Pow128(|s|) <= Fold(c, s) < (c + 1) * Pow128(|s|)
  {
    if s == [] {
    } else {
      var r := s[..|s| - 1];
      FoldShift(c, r);
      var q := Pow128(|r|);
      assert Pow128(|s|) == 128 * q;
      assert c * (128 * q) == (c * q) * 128;
      assert (c + 1) * (128 * q) == ((c + 1) * q) * 128;
    }
  }

  lemma FirstGroup(b: byte)
    ensures -64 <= Init(b) * 128 + b % 128 < 64
  {
  }

  /** A byte string of n groups stands for an n-group two's complement number. */
  lemma ValBound(s: seq<byte>)
    requires s != []
    ensures -64 * Pow128(|s| - 1) <= Val(s) < 64 * Pow128(|s| - 1)
  {
    hide Fold, Pow128, Init;
    var c := Init(s[0]) * 128 + s[0] % 128;
    FirstGroup(s[0]);
    FoldHead(Init(s[0]), s);
    FoldShift(c, s[1..]);
    Monotone(-64, c, Pow128(|s| - 1));
    Monotone(c + 1, 64, Pow128(|s| - 1));
  }

  lemma LowGroupOf(x: int, front: int, g: nat)
    requires g < 128 && x == front * 128 + g
    ensures x / 128 == front && x % 128 == g
  {
  }

  /** The k-th group of the number from its end is in the k-th byte from the end. With ValBound this says which
      number a byte string stands for. */
  lemma {:induction false} FoldAt(init: int, s: seq<byte>, k: nat)
    requires k < |s|
    ensures (Fold(init, s) / Pow128(k)) % 128 == s[|s| - 1 - k] % 128
    decreases k
  {
    var front := Fold(init, s[..|s| - 1]);
    assert Fold(init, s) == front * 128 + s[|s| - 1] % 128;
    LowGroupOf(Fold(init, s), front, s[|s| - 1] % 128);
    if k == 0 {
      assert Pow128(0) == 1;
    } else {
      FoldAt(init, s[..|s| - 1], k - 1);
      DivideTwice(Fold(init, s), 128, Pow128(k - 1));
    }
  }

  /** Any byte string stands for the two's complement number of its seven-bit groups. */
  lemma ValGroups(s: seq<byte>, k: nat)
    requires k < |s|
    ensures (Val(s) / Pow128(k)) % 128 == s[|s| - 1 - k] % 128
    ensures -64 * Pow128(|s| - 1) <= Val(s) < 64 * Pow128(|s| - 1)
  {
    hide Fold, Pow128;
    FoldAt(Init(s[0]), s, k);
    ValBound(s);
  }

  /** Fitting a number into a width changes it by a multiple of the number of values of that width. */
  lemma TruncateKeeps(signed: bool, w: Width, v: int) returns (q: int)
    ensures v == Truncate(signed, w, v) + q * if w == 2 then 0x1_0000 else if w == 4 then 0x1_0000_0000
                                              else 0x1_0000_0000_0000_0000
  {
    if InRange(signed, w, v) {
      q := 0;
    } else if w == 2 {
      q := (v + if signed then 0x8000 else 0) / 0x1_0000;
    } else if w == 4 {
      q := (v + if signed then 0x8000_0000 else 0) / 0x1_0000_0000;
    } else {
      q := (v + if signed then 0x8000_0000_0000_0000 else 0) / 0x1_0000_0000_0000_0000;
    }
  }

  /** The encoder's form is the shortest: no byte string standing for the same number is shorter. */
  lemma Shortest(s: seq<byte>)
    requires s != []
    ensures |Groups(Val(s), 0)| <= |s|
  {
    ValBound(s);
    GroupsLength(Val(s), 0, |s|);
  }

  lemma {:induction false} Pow128Mono(m: nat, n: nat)
    requires m <= n
    ensures Pow128(m) <= Pow128(n)
    decreases n
  {
    if m < n {
      Pow128Mono(m, n - 1);
    }
  }

  lemma Pow128Below(n: nat)
    requires n <= 8
    ensures 64 * Pow128(n) <= 0x8000_0000_0000_0000
  {
    assert Pow128(2) == 0x4000;
    assert Pow128(4) == 128 * 128 * Pow128(2);
    assert Pow128(6) == 128 * 128 * Pow128(4);
    assert Pow128(8) == 128 * 128 * Pow128(6);
    Pow128Mono(n, 8);
  }

  /** A value of at most nine groups needs no wrap-around. */
  lemma NoWrap(s: seq<byte>)
    requires 0 < |s| <= 9
    ensures -0x8000_0000_0000_0000 <= Val(s) < 0x8000_0000_0000_0000
  {
    ValBound(s);
    Pow128Below(|s| - 1);
  }

  lemma WrapSmall(signed: bool, x: int)
    requires -0x8000_0000_0000_0000 <= x < 0x8000_0000_0000_0000
    ensures Wrap(signed, x) == if signed || x >= 0 then x else x + 0x1_0000_0000_0000_0000
  {
  }

  /** The first byte's sign bit is the sign of the number. */
  lemma SignOf(s: seq<byte>)
    requires s != []
    ensures Init(s[0]) == if Val(s) < 0 then -1 else 0
  {
    hide Fold, Pow128;
    FoldShift(Init(s[0]), s);
  }

  /** A negative number of at most nine groups, fitted into 64 unsigned bits, needs ten. */
  lemma UnsignedLengthens(x: int, n: nat)
    requires 0 < n < 10 && -0x8000_0000_0000_0000 <= x < 0
    ensures |Groups(x + 0x1_0000_0000_0000_0000, 0)| > n
  {
    hide Groups, Pow128;
    Pow128Below(n - 1);
    GroupsLength(x + 0x1_0000_0000_0000_0000, 0, n);
  }

  lemma WrapFits(signed: bool, x: int)
    ensures |Groups(Wrap(signed, x), 0)| <= 10
  {
    hide Groups, Truncate;
    FitsBuffer(signed, 8, Wrap(signed, x));
  }

  /** Fitting the number into 64 bits never lengthens its code, unless an unsigned reader met a sign bit. */
  lemma WrapShortens(signed: bool, s: seq<byte>, x: int)
    requires 0 < |s| <= 10 && x == Val(s)
    ensures |Groups(Wrap(signed, x), 0)| <= |s| <==> (signed || Init(s[0]) == 0 || |s| == 10)
  {
    hide Groups, Val, Init, Wrap;
    if |s| == 10 {
      WrapFits(signed, x);
    } else {
      NoWrap(s);
      WrapSmall(signed, x);
      Shortest(s);
      SignOf(s);
      if !signed && x < 0 {
        UnsignedLengthens(x, |s|);
      }
    }
  }

  /** On any input the reader takes at most MaxBytes bytes. A value the signed reader accepts is re-encoded in
      no more bytes than were read, even when ten groups wrapped around, and a non-zero one reads back. */
  lemma SignedReencode(w: Width, d: seq<byte>, p: nat, x: seq<byte>)
    requires ReadAt(true, w, d, p).Ok?
    ensures var (v, q) := ReadAt(true, w, d, p).value;
            && q - p <= MaxBytes(w)
            && |Groups(v, 0)| <= q - p
            && (v != 0 ==> ReadAt(true, w, Compressed(v) + x, 0) == Ok((v, |Compressed(v)|)))
  {
    var last := Stop(d, p, MaxBytes(w)).value;
    var s := d[p..last + 1];
    var v := Wrap(true, Val(s));
    WrapShortens(true, s, Val(s));
    if v != 0 {
      CodeShape(v);
      assert At(Compressed(v) + x, 0, Compressed(v));
      CodeRead(true, w, Compressed(v), v, Compressed(v) + x, 0);
    }
  }

  /** The unsigned reader can grow a value: exactly when the first byte read carries the sign bit does the
      64-bit result need ten bytes again; otherwise it is re-encoded in no more bytes than were read
      (ten-byte inputs aside, which nothing can exceed). */
  lemma UnsignedReencode(w: Width, d: seq<byte>, p: nat)
    requires ReadAt(false, w, d, p).Ok?
    ensures var (v, q) := ReadAt(false, w, d, p).value;
            |Groups(v, 0)| <= q - p <==> ((d[p] / 64) % 2 == 0 || q - p == 10)
  {
    var last := Stop(d, p, MaxBytes(w)).value;
    WrapShortens(false, d[p..last + 1], Val(d[p..last + 1]));
  }

  /** One byte that the unsigned reader accepts at width 2 and that takes more bytes when written again. */
  lemma UnsignedGrows()
    ensures ReadAt(false, 2, [0x40], 0).Ok?
    ensures var (v, q) := ReadAt(false, 2, [0x40], 0).value; q == 1 && |Groups(v, 0)| > 1
  {
    assert Stop([0x40], 0, 3) == Ok(0);
    UnsignedReencode(2, [0x40], 0);
  }
}
