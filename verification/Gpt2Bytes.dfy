/**
 * The byte-level alphabet of the GPT2 lane (src/tokenizer/tokenizer.c): every byte stands for a
 * printable codepoint, stored as one or two UTF-8 bytes.
 */
module Gpt2Bytes {
  import opened Common

  predicate Printable(b: int) { 33 <= b <= 126 || 161 <= b <= 172 || 174 <= b <= 255 }

  /** How many bytes below `b` are not printable. */
  function Unprintable(b: nat): nat {
    Min(b, 33) + Max(0, Min(b, 161) - 127) + (if b > 173 then 1 else 0)
  }

  /** Printable bytes stand for themselves, the others for 256, 257, ... in order. */
  function Codepoint(b: byte): (cp: nat)
    ensures 33 <= cp <= 323
  {
    if Printable(b) then b else 256 + Unprintable(b)
  }

  const MAX_CP: nat := 323

  /** The byte a codepoint stands for, -1 if none. */
  function ByteOf(cp: int): (b: int)
    ensures -1 <= b < 256
  {
    if 33 <= cp <= 126 || 161 <= cp <= 172 || 174 <= cp <= 255 then cp
    else if 256 <= cp <= 288 then cp - 256
    else if 289 <= cp <= 322 then cp - 162
    else if cp == 323 then 173
    else -1
  }

  /** The alphabet is a bijection between bytes and the codepoints in use. */
  lemma AlphabetBijection(b: byte, cp: int)
    ensures ByteOf(Codepoint(b)) == b
    ensures ByteOf(cp) >= 0 ==> Codepoint(ByteOf(cp)) == cp
  {}

  /** The UTF-8 of a byte's codepoint. */
  function Encoded(b: byte): (e: bytes)
    ensures 1 <= |e| <= 2
    ensures forall i | 0 <= i < |e| :: e[i] != SPACE
  {
    var cp := Codepoint(b);
    if cp < 0x80 then [cp] else [0xC0 + cp / 64, 0x80 + cp % 64]
  }

  /** build_byte_maps. */
  method BuildByteMaps() returns (cpToByte: array<int>, maxCp: nat, bcp: array<bytes>)
    ensures fresh(cpToByte) && fresh(bcp) && cpToByte.Length == 512 && bcp.Length == 256
    ensures maxCp == MAX_CP
    ensures forall c | 0 <= c <= maxCp :: cpToByte[c] == ByteOf(c)
    ensures forall b: byte :: bcp[b] == Encoded(b)
  {
    var table := ByteCodepoints();
    var byteToCp := table[..];
    maxCp := 0;
    for b := 0 to 256
      invariant forall c | 0 <= c < b :: byteToCp[c] <= maxCp
      invariant maxCp <= MAX_CP && (b > 173 ==> maxCp == MAX_CP)
    {
      if byteToCp[b] > maxCp { maxCp := byteToCp[b]; }
    }
    cpToByte := new int[512];
    for c := 0 to maxCp + 1
      invariant forall d | 0 <= d < c :: cpToByte[d] == -1
    {
      cpToByte[c] := -1;
    }
    bcp := new bytes[256];
    for b := 0 to 256
      invariant forall c | 0 <= c <= maxCp :: cpToByte[c] == if 0 <= ByteOf(c) < b then ByteOf(c) else -1
      invariant forall c: byte | c < b :: bcp[c] == Encoded(c)
    {
      var cp := byteToCp[b];
      AlphabetInverse(b);
      cpToByte[cp] := b;
      bcp[b] := if cp < 0x80 then [cp] else [0xC0 + cp / 64, 0x80 + cp % 64];
    }
  }

  lemma AlphabetInverse(b: byte)
    ensures forall c :: ByteOf(c) == b <==> c == Codepoint(b)
  {}

  method ByteCodepoints() returns (byteToCp: array<nat>)
    ensures fresh(byteToCp) && byteToCp.Length == 256
    ensures forall b: byte :: byteToCp[b] == Codepoint(b)
  {
    byteToCp := new nat[256];
    var n := 0;
    for b := 0 to 256
      invariant n == Unprintable(b)
      invariant forall c: byte | c < b :: byteToCp[c] == Codepoint(c)
    {
      if Printable(b) {
        byteToCp[b] := b;
      } else {
        byteToCp[b] := 256 + n;
        n := n + 1;
      }
    }
  }

  function Low6(b: byte): int { b % 64 }

  /** cp_decode: the codepoint at the start of `s` and its width; malformed bytes stand alone. */
  function CpDecode(s: bytes): (r: (int, nat))
    requires s != []
    ensures 1 <= r.1 <= |s|
  {
    var c: int := s[0];
    if c < 0x80 then (c, 1)
    else if 0xC0 <= c < 0xE0 && |s| >= 2 then (c % 32 * 64 + Low6(s[1]), 2)
    else if 0xE0 <= c < 0xF0 && |s| >= 3 then (c % 16 * 4096 + Low6(s[1]) * 64 + Low6(s[2]), 3)
    else if 0xF0 <= c < 0xF8 && |s| >= 4 then (c % 8 * 262144 + Low6(s[1]) * 4096 + Low6(s[2]) * 64 + Low6(s[3]), 4)
    else (c, 1)
  }

  /** What a token's spelling decodes to: mapped codepoints give bytes, others are copied. */
  function SpellingText(w: bytes): bytes
    decreases |w|
  {
    if w == [] then [] else
    var (cp, n) := CpDecode(w);
    (if cp <= MAX_CP && ByteOf(cp) >= 0 then [ByteOf(cp)] else w[..n]) + SpellingText(w[n..])
  }

  lemma Utf8Decodes(cp: nat)
    requires 0x80 <= cp < 0x800
    ensures 2 <= cp / 64 < 32 && (0xC0 + cp / 64) % 32 * 64 + (0x80 + cp % 64) % 64 == cp
  {}

  lemma DecodesCodepoint(b: byte, rest: bytes)
    ensures CpDecode(Encoded(b) + rest) == (Codepoint(b), |Encoded(b)|)
  {
    var cp := Codepoint(b);
    var w := Encoded(b) + rest;
    if cp >= 0x80 {
      Utf8Decodes(cp);
      assert w[0] == 0xC0 + cp / 64 && w[1] == 0x80 + cp % 64;
    }
  }

  lemma DecodesBack(b: byte, rest: bytes)
    ensures SpellingText(Encoded(b) + rest) == [b] + SpellingText(rest)
  {
    AlphabetBijection(b, 0);
    DecodesCodepoint(b, rest);
    var w := Encoded(b) + rest;
    assert w[|Encoded(b)|..] == rest;
  }

  /** The byte-level spelling of a text. */
  function Spelling(s: bytes): bytes {
    if s == [] then [] else Encoded(s[0]) + Spelling(s[1..])
  }

  /** Whatever bytes, valid UTF-8 or not: the spelling decodes back. */
  lemma {:induction false} SpellingRoundTrip(s: bytes, rest: bytes)
    ensures SpellingText(Spelling(s) + rest) == s + SpellingText(rest)
  {
    if s == [] {
      assert Spelling(s) + rest == rest;
    } else {
      Assoc(Encoded(s[0]), Spelling(s[1..]), rest);
      DecodesBack(s[0], Spelling(s[1..]) + rest);
      SpellingRoundTrip(s[1..], rest);
      Assoc([s[0]], s[1..], SpellingText(rest));
      assert [s[0]] + s[1..] == s;
    }
  }
}
