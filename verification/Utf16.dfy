/** Strings as sequences of Unicode scalar values, and UTF-16 as sections 2.1 and 2.2 of RFC 2781 define it. */
module Utf16 {
  import opened Bytes

  type Rune = x: int | 0 <= x < 0xD800 || 0xE000 <= x < 0x11_0000

  const REPLACEMENT: Rune := 0xFFFD

  function EncodeRune(r: Rune): (u: seq<u16>)
    ensures 1 <= |u| <= 2
  {
    if r < 0x1_0000 then [r]
    else [0xD800 + (r - 0x1_0000) / 0x400, 0xDC00 + (r - 0x1_0000) % 0x400]
  }

  function Units(s: seq<Rune>): (u: seq<u16>)
    ensures s != [] ==> u != []
  {
    if s == [] then [] else EncodeRune(s[0]) + Units(s[1..])
  }

  predicate High(u: u16) { 0xD800 <= u < 0xDC00 }
  predicate Low(u: u16) { 0xDC00 <= u < 0xE000 }

  /** Unpaired surrogates become U+FFFD. */
  function Runes(u: seq<u16>): seq<Rune> {
    if u == [] then []
    else if High(u[0]) && |u| >= 2 && Low(u[1]) then
      [(u[0] - 0xD800) * 0x400 + (u[1] - 0xDC00) + 0x1_0000] + Runes(u[2..])
    else if High(u[0]) || Low(u[0]) then [REPLACEMENT] + Runes(u[1..])
    else [u[0]] + Runes(u[1..])
  }

  lemma {:induction false} RunesOfUnits(s: seq<Rune>)
    ensures Runes(Units(s)) == s
  {
    if s != [] {
      var r, u := s[0], Units(s);
      var n := |EncodeRune(r)|;
      RunesOfUnits(s[1..]);
      assert u[n..] == Units(s[1..]);
      if r >= 0x1_0000 {
        var x: int := r as int - 0x1_0000;
        assert x / 0x400 * 0x400 + x % 0x400 == x;
        assert u[0] as int == 0xD800 + x / 0x400 && u[1] as int == 0xDC00 + x % 0x400;
      }
      assert Runes(u) == [r] + Runes(u[n..]);
    }
  }

  /** The units as little-endian byte pairs. */
  function Pairs(u: seq<u16>): (s: seq<byte>)
    ensures |s| == 2 * |u|
  {
    if u == [] then [] else [u[0] % 256, u[0] / 256] + Pairs(u[1..])
  }

  function UnPairs(s: seq<byte>): (u: seq<u16>)
    requires |s| % 2 == 0
    ensures |s| == 2 * |u|
  {
    if s == [] then [] else [s[0] as int + 256 * s[1] as int] + UnPairs(s[2..])
  }

  lemma {:induction false} UnPairsOfPairs(u: seq<u16>)
    ensures UnPairs(Pairs(u)) == u
  {
    if u != [] {
      UnPairsOfPairs(u[1..]);
      assert Pairs(u)[2..] == Pairs(u[1..]);
    }
  }

  /** A scalar value beyond the basic plane is a high and a low surrogate, ten bits in each. */
  lemma SurrogatePair(r: Rune)
    ensures r < 0x1_0000 ==> EncodeRune(r) == [r]
    ensures r >= 0x1_0000 ==>
              && |EncodeRune(r)| == 2
              && 0xD800 <= EncodeRune(r)[0] < 0xDC00 && 0xDC00 <= EncodeRune(r)[1] < 0xE000
              && r == 0x1_0000 + 0x400 * (EncodeRune(r)[0] as int - 0xD800) + (EncodeRune(r)[1] as int - 0xDC00)
  {
  }

  /** A surrogate that is not part of a pair decodes to U+FFFD and what follows it is decoded on its own. */
  lemma Unpaired(u: u16, rest: seq<u16>)
    requires 0xD800 <= u < 0xE000
    requires u < 0xDC00 ==> rest == [] || !(0xDC00 <= rest[0] < 0xE000)
    ensures Runes([u] + rest) == [0xFFFD] + Runes(rest)
  {
    assert ([u] + rest)[1..] == rest;
  }
}
