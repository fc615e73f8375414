/**
 * 256-bit episode signatures (tools/sp_daemon/src/recall.rs, eagle_accept.rs): the hex form, its
 * parser, bit agreement and the best match of a registry.
 */
module Signature {
  import opened Common
  import opened MemoRouting

  const R_BITS: nat := 256
  const HEX_LEN: nat := 64

  /** Four words; bit i of the signature is bit i % 64 of word i / 64. */
  type Sig = s: seq<u64> | |s| == 4 witness NoBits()

  function NoBits(): (s: seq<u64>)
    ensures |s| == 4
  {
    [Clear(), Clear(), Clear(), Clear()]
  }

  function BitOf(s: Sig, i: nat): bool
    requires i < R_BITS
  {
    s[i / 64][i % 64]
  }

  lemma SameBits(a: Sig, b: Sig)
    requires forall i: nat | i < R_BITS :: BitOf(a, i) == BitOf(b, i)
    ensures a == b
  {
    forall w | 0 <= w < 4 ensures a[w] == b[w] {
      forall k: nat | k < 64 ensures a[w][k] == b[w][k] {
        var i := 64 * w + k;
        assert i / 64 == w && i % 64 == k;
        assert BitOf(a, i) == BitOf(b, i);
      }
    }
  }

  // ---- hex digits ----

  function Weight(b: bool, w: nat): nat { if b then w else 0 }

  function NibbleValue(b0: bool, b1: bool, b2: bool, b3: bool): (v: nat)
    ensures v < 16
  {
    Weight(b0, 1) + Weight(b1, 2) + Weight(b2, 4) + Weight(b3, 8)
  }

  /** `v & (1 << k) != 0`. */
  function NibbleBit(v: nat, k: nat): bool
    requires v < 16 && k < 4
  {
    (if k == 0 then v else if k == 1 then v / 2 else if k == 2 then v / 4 else v / 8) % 2 == 1
  }

  function Digit(v: nat): byte
    requires v < 16
  {
    if v < 10 then 0x30 + v else 0x57 + v
  }

  /** `to_digit(16)`: upper-case letters are digits too. */
  function DigitValue(c: byte): (v: Option<nat>)
    ensures v.Some? ==> v.value < 16
  {
    if 0x30 <= c <= 0x39 then Some(c - 0x30)
    else if 0x61 <= c <= 0x66 then Some(c - 0x57)
    else if 0x41 <= c <= 0x46 then Some(c - 0x37)
    else None
  }

  lemma DigitRoundTrip(v: nat)
    requires v < 16
    ensures DigitValue(Digit(v)) == Some(v)
  {}

  lemma NibbleRoundTrip(b0: bool, b1: bool, b2: bool, b3: bool, v: nat)
    requires v < 16
    ensures var n := NibbleValue(b0, b1, b2, b3);
            NibbleBit(n, 0) == b0 && NibbleBit(n, 1) == b1 && NibbleBit(n, 2) == b2 && NibbleBit(n, 3) == b3
    ensures NibbleValue(NibbleBit(v, 0), NibbleBit(v, 1), NibbleBit(v, 2), NibbleBit(v, 3)) == v
  {}

  function Lower(c: byte): byte { if 0x41 <= c <= 0x46 then c + 0x20 else c }

  lemma DigitOfValue(c: byte)
    requires DigitValue(c).Some?
    ensures Digit(DigitValue(c).value) == Lower(c)
  {}

  // ---- the hex form ----

  function NibbleOf(w: u64, n: nat): (v: nat)
    requires n < 16
    ensures v < 16
  {
    NibbleValue(w[4 * n], w[4 * n + 1], w[4 * n + 2], w[4 * n + 3])
  }

  /** Hex digit c of a word, counted from the most significant. */
  function HexDigit(w: u64, c: nat): byte
    requires c < 16
  {
    Digit(NibbleOf(w, 15 - c))
  }

  /** `{:016x}`. */
  function Hex16(w: u64): (h: bytes)
    ensures |h| == 16
  {
    seq(16, c requires 0 <= c < 16 => HexDigit(w, c))
  }

  /** sig_hex: the words from the most significant down. */
  function SigHex(s: Sig): (h: bytes)
    ensures |h| == HEX_LEN
  {
    Hex16(s[3]) + Hex16(s[2]) + Hex16(s[1]) + Hex16(s[0])
  }

  /** Hex digit c of a signature spells bits 252 - 4c to 255 - 4c. */
  lemma SigHexAt(s: Sig, c: nat)
    requires c < HEX_LEN
    ensures SigHex(s)[c] == Digit(NibbleOf(s[(63 - c) / 16], (63 - c) % 16))
  {
    var w := (63 - c) / 16;
    DigitPlace(c, w);
    SigHexPart(s, w, c - 16 * (3 - w));
  }

  lemma DigitPlace(c: nat, w: nat)
    requires c < HEX_LEN && w == (63 - c) / 16
    ensures w < 4 && 0 <= c - 16 * (3 - w) < 16 && (63 - c) % 16 == 15 - (c - 16 * (3 - w))
  {}

  /** The sixteen digits of word w, the most significant word first. */
  lemma SigHexPart(s: Sig, w: nat, x: nat)
    requires w < 4 && x < 16
    ensures SigHex(s)[16 * (3 - w) + x] == Hex16(s[w])[x]
  {}

  /** The bits spelled by a hex text: bit i is bit i % 4 of digit 63 - i / 4. */
  ghost predicate Spells(hex: bytes, s: Sig) {
    && |hex| == HEX_LEN
    && forall i: nat | i < R_BITS ::
         DigitValue(hex[63 - i / 4]).Some? && BitOf(s, i) == NibbleBit(DigitValue(hex[63 - i / 4]).value, i % 4)
  }

  /** The parser's state after c digits: the bits of those digits, all others clear. */
  ghost predicate SpellsFrom(hex: bytes, s: Sig, c: nat) {
    && |hex| == HEX_LEN && c <= HEX_LEN
    && forall i: nat | i < R_BITS ::
         if 63 - i / 4 < c
         then DigitValue(hex[63 - i / 4]).Some? && BitOf(s, i) == NibbleBit(DigitValue(hex[63 - i / 4]).value, i % 4)
         else !BitOf(s, i)
  }

  method SetSigBit(words: array<u64>, bit: nat)
    requires words.Length == 4 && bit < R_BITS
    modifies words
    ensures forall i: nat | i < R_BITS :: BitOf(words[..], i) == (i == bit || BitOf(old(words[..]), i))
  {
    words[bit / 64] := SetBit(words[bit / 64], bit % 64);
  }

  /** parse_sig_hex. */
  method ParseSigHex(hex: bytes) returns (r: Option<Sig>)
    ensures r.Some? <==> |hex| == HEX_LEN && forall c | 0 <= c < |hex| :: DigitValue(hex[c]).Some?
    ensures r.Some? ==> Spells(hex, r.value)
  {
    if |hex| != HEX_LEN { return None; }
    var words := new u64[4](_ => Clear());
    for ci := 0 to HEX_LEN
      invariant SpellsFrom(hex, words[..], ci)
      invariant forall c | 0 <= c < ci :: DigitValue(hex[c]).Some?
    {
      var d := DigitValue(hex[ci]);
      if d.None? { return None; }
      ghost var was := words[..];
      AddNibble(words, (63 - ci) * 4, d.value);
      OneMoreDigit(hex, was, words[..], ci, d.value);
    }
    r := Some(words[..]);
  }

  /** Adds the bits of nibble `nib` at bit position `lo`. */
  method AddNibble(words: array<u64>, lo: nat, nib: nat)
    requires words.Length == 4 && lo + 4 <= R_BITS && nib < 16
    modifies words
    ensures forall i: nat | i < R_BITS ::
              BitOf(words[..], i) == ((lo <= i < lo + 4 && NibbleBit(nib, i - lo)) || BitOf(old(words[..]), i))
  {
    for k := 0 to 4
      invariant forall i: nat | i < R_BITS ::
                  BitOf(words[..], i) == ((lo <= i < lo + k && NibbleBit(nib, i - lo)) || BitOf(old(words[..]), i))
    {
      if NibbleBit(nib, k) { SetSigBit(words, lo + k); }
    }
  }

  lemma OneMoreDigit(hex: bytes, was: Sig, now: Sig, ci: nat, nib: nat)
    requires ci < HEX_LEN && SpellsFrom(hex, was, ci) && DigitValue(hex[ci]) == Some(nib)
    requires forall i: nat | i < R_BITS ::
               BitOf(now, i) == (((63 - ci) * 4 <= i < (63 - ci) * 4 + 4 && NibbleBit(nib, i - (63 - ci) * 4))
                   || BitOf(was, i))
    ensures SpellsFrom(hex, now, ci + 1)
  {
    forall i: nat | i < R_BITS && 63 - i / 4 < ci + 1
      ensures DigitValue(hex[63 - i / 4]).Some? && BitOf(now, i) == NibbleBit(DigitValue(hex[63 - i / 4]).value, i % 4)
    {
      var c := 63 - i / 4;
      if c == ci {
        assert i - (63 - ci) * 4 == i % 4;
        assert !BitOf(was, i);
      } else {
        assert c < ci && !((63 - ci) * 4 <= i < (63 - ci) * 4 + 4);
        assert BitOf(was, i) == BitOf(now, i);
      }
    }
    forall i: nat | i < R_BITS && 63 - i / 4 >= ci + 1 ensures !BitOf(now, i) {
      assert !((63 - ci) * 4 <= i < (63 - ci) * 4 + 4);
    }
  }

  // ---- round trips ----

  /** Bit i % 4 of the nibble that holds bit i is bit i. */
  lemma NibbleHoldsBit(w: u64, k: nat)
    requires k < 64
    ensures NibbleBit(NibbleOf(w, k / 4), k % 4) == w[k]
  {
    var n := k / 4;
    NibbleRoundTrip(w[4 * n], w[4 * n + 1], w[4 * n + 2], w[4 * n + 3], 0);
    assert k == 4 * n + k % 4;
  }

  lemma HexSpells(s: Sig)
    ensures Spells(SigHex(s), s)
  {
    forall i: nat | i < R_BITS
      ensures DigitValue(SigHex(s)[63 - i / 4]).Some?
           && BitOf(s, i) == NibbleBit(DigitValue(SigHex(s)[63 - i / 4]).value, i % 4)
    {
      var c := 63 - i / 4;
      var w, k := i / 64, i % 64;
      SigHexAt(s, c);
      assert (63 - c) / 16 == w && (63 - c) % 16 == k / 4 && k % 4 == i % 4;
      DigitRoundTrip(NibbleOf(s[w], k / 4));
      NibbleHoldsBit(s[w], k);
    }
  }

  lemma SpellsOne(hex: bytes, a: Sig, b: Sig)
    requires Spells(hex, a) && Spells(hex, b)
    ensures a == b
  {
    forall i: nat | i < R_BITS ensures BitOf(a, i) == BitOf(b, i) {
      assert DigitValue(hex[63 - i / 4]).Some?;
    }
    SameBits(a, b);
  }

  /** Whatever signature the parser finds in a written signature is that signature. */
  lemma ParseInvertsHex(s: Sig, parsed: Sig)
    requires Spells(SigHex(s), parsed)
    ensures parsed == s
  {
    HexSpells(s);
    SpellsOne(SigHex(s), parsed, s);
  }

  /** Writing a parsed text gives it back in lower case. */
  lemma HexInvertsParse(hex: bytes, s: Sig)
    requires Spells(hex, s)
    ensures SigHex(s) == seq(|hex|, c requires 0 <= c < |hex| => Lower(hex[c]))
  {
    forall c: nat | c < HEX_LEN ensures SigHex(s)[c] == Lower(hex[c]) {
      SigHexAt(s, c);
      var n := 63 - c;
      NibbleFromDigit(hex, s, n);
      DigitOfValue(hex[c]);
    }
  }

  lemma NibbleFromDigit(hex: bytes, s: Sig, n: nat)
    requires Spells(hex, s) && n < 64
    ensures DigitValue(hex[63 - n]) == Some(NibbleOf(s[n / 16], n % 16))
  {
    BitFromDigit(hex, s, n, 0);
    BitFromDigit(hex, s, n, 1);
    BitFromDigit(hex, s, n, 2);
    BitFromDigit(hex, s, n, 3);
    NibbleRoundTrip(false, false, false, false, DigitValue(hex[63 - n]).value);
  }

  /** Bit b of nibble n is bit b of its digit. */
  lemma BitFromDigit(hex: bytes, s: Sig, n: nat, b: nat)
    requires Spells(hex, s) && n < 64 && b < 4
    ensures DigitValue(hex[63 - n]).Some?
    ensures s[n / 16][4 * (n % 16) + b] == NibbleBit(DigitValue(hex[63 - n]).value, b)
  {
    BitPlace(n, b);
    var i := 4 * n + b;
    assert BitOf(s, i) == NibbleBit(DigitValue(hex[63 - i / 4]).value, i % 4);
  }

  lemma BitPlace(n: nat, b: nat)
    requires b < 4
    ensures (4 * n + b) / 64 == n / 16 && (4 * n + b) % 64 == 4 * (n % 16) + b
    ensures (4 * n + b) / 4 == n && (4 * n + b) % 4 == b
  {}

  /** Writing a signature and parsing it gives it back. */
  method RoundTrip(s: Sig) returns (r: Option<Sig>)
    ensures r == Some(s)
  {
    HexSpells(s);
    forall c | 0 <= c < HEX_LEN ensures DigitValue(SigHex(s)[c]).Some? {
      var i := 4 * (63 - c);
      assert 63 - i / 4 == c;
    }
    r := ParseSigHex(SigHex(s));
    ParseInvertsHex(s, r.value);
  }

  // ---- what a hex text is ----

  /** The character for v: 0 to 9, and letters of either case from 10. */
  predicate IsHexDigit(c: byte, v: nat) {
    if v < 10 then c == '0' as int + v else v < 16 && (c == 'a' as int + v - 10 || c == 'A' as int + v - 10)
  }

  function OneBit(b: bool): nat { if b then 1 else 0 }

  /** The number that four bits of a signature make, the highest of them given. */
  function FourBits(s: Sig, top: nat): nat
    requires 3 <= top < R_BITS
  {
    8 * OneBit(BitOf(s, top)) + 4 * OneBit(BitOf(s, top - 1))
    + 2 * OneBit(BitOf(s, top - 2)) + OneBit(BitOf(s, top - 3))
  }

  /** A signature as a number in 64 digits, bit 255 the highest. */
  predicate IsHexOf(hex: bytes, s: Sig) {
    |hex| == HEX_LEN && forall c: nat | c < HEX_LEN :: IsHexDigit(hex[c], FourBits(s, 255 - 4 * c))
  }

  lemma HexDigitIs(c: byte, v: nat)
    ensures DigitValue(c) == Some(v) <==> IsHexDigit(c, v)
  {}

  lemma FourBitsAre(s: Sig, c: nat)
    requires c < HEX_LEN
    ensures FourBits(s, 255 - 4 * c) == NibbleOf(s[(63 - c) / 16], (63 - c) % 16)
  {
    var n := 63 - c;
    BitPlace(n, 0); BitPlace(n, 1); BitPlace(n, 2); BitPlace(n, 3);
  }

  /** The bits a text spells, and the text a signature is written as. */
  lemma SpellsIsHex(hex: bytes, s: Sig)
    ensures Spells(hex, s) <==> IsHexOf(hex, s)
  {
    if Spells(hex, s) {
      forall c: nat | c < HEX_LEN ensures IsHexDigit(hex[c], FourBits(s, 255 - 4 * c)) {
        NibbleFromDigit(hex, s, 63 - c);
        FourBitsAre(s, c);
        HexDigitIs(hex[c], FourBits(s, 255 - 4 * c));
      }
    }
    if IsHexOf(hex, s) {
      forall i: nat | i < R_BITS
        ensures DigitValue(hex[63 - i / 4]).Some?
             && BitOf(s, i) == NibbleBit(DigitValue(hex[63 - i / 4]).value, i % 4)
      {
        HexBit(hex, s, i);
      }
    }
  }

  lemma HexBit(hex: bytes, s: Sig, i: nat)
    requires IsHexOf(hex, s) && i < R_BITS
    ensures DigitValue(hex[63 - i / 4]).Some? && BitOf(s, i) == NibbleBit(DigitValue(hex[63 - i / 4]).value, i % 4)
  {
    var c, w, k := 63 - i / 4, i / 64, i % 64;
    FourBitsAre(s, c);
    HexDigitIs(hex[c], FourBits(s, 255 - 4 * c));
    assert (63 - c) / 16 == w && (63 - c) % 16 == k / 4 && k % 4 == i % 4;
    NibbleHoldsBit(s[w], k);
  }

  // ---- agreement ----

  function Agree(a: Sig, b: Sig): int {
    R_BITS - Distance(a, b)
  }

  predicate Differ(a: Sig, b: Sig, i: nat) { i < R_BITS && BitOf(a, i) != BitOf(b, i) }

  /** The bits below n in which two signatures differ. */
  function Differing(a: Sig, b: Sig, n: nat): set<nat> { set i: nat | i < n && Differ(a, b, i) }

  lemma OneMoreBit(a: Sig, b: Sig, n: nat)
    requires n < R_BITS
    ensures |Differing(a, b, n + 1)| == |Differing(a, b, n)| + OneBit(Differ(a, b, n))
  {
    if Differ(a, b, n) {
      assert Differing(a, b, n + 1) == Differing(a, b, n) + {n};
    } else {
      assert Differing(a, b, n + 1) == Differing(a, b, n);
    }
  }

  /** Counting through one word. */
  lemma {:induction false} DifferInWord(a: Sig, b: Sig, w: nat, k: nat)
    requires w < 4 && k <= 64
    ensures |Differing(a, b, 64 * w + k)| == |Differing(a, b, 64 * w)| + Ones(Xor(a[w], b[w]), k)
  {
    if k > 0 {
      DifferInWord(a, b, w, k - 1);
      OneMoreBit(a, b, 64 * w + k - 1);
      assert (64 * w + k - 1) / 64 == w && (64 * w + k - 1) % 64 == k - 1;
    }
  }

  /** The agreement is the number of bits that are equal. */
  lemma AgreeCounts(a: Sig, b: Sig)
    ensures Agree(a, b) == R_BITS - |Differing(a, b, R_BITS)|
  {
    DistanceOfFour(a, b);
    DifferInWord(a, b, 0, 64);
    DifferInWord(a, b, 1, 64);
    DifferInWord(a, b, 2, 64);
    DifferInWord(a, b, 3, 64);
    assert Differing(a, b, 0) == {};
  }

  lemma {:induction false} OnesZeroIff(x: u64, n: nat)
    requires n <= WIDTH
    ensures Ones(x, n) == 0 <==> forall h: nat | h < n :: !x[h]
    ensures Ones(x, n) <= n
  {
    if n > 0 { OnesZeroIff(x, n - 1); }
  }

  lemma WordDistance(x: u64, y: u64)
    ensures CountOnes(Xor(x, y)) == 0 <==> x == y
    ensures CountOnes(Xor(x, y)) <= 64
  {
    OnesZeroIff(Xor(x, y), WIDTH);
    if CountOnes(Xor(x, y)) == 0 {
      assert forall h: nat | h < 64 :: x[h] == y[h];
    }
  }

  lemma DistanceOfFour(a: Sig, b: Sig)
    ensures Distance(a, b) == CountOnes(Xor(a[0], b[0])) + CountOnes(Xor(a[1], b[1]))
                            + CountOnes(Xor(a[2], b[2])) + CountOnes(Xor(a[3], b[3]))
  {
    assert a[1..][1..] == a[2..] && a[2..][1..] == a[3..] && a[3..][1..] == [];
    assert b[1..][1..] == b[2..] && b[2..][1..] == b[3..] && b[3..][1..] == [];
    assert Distance(a[3..], b[3..]) == CountOnes(Xor(a[3], b[3]));
    assert Distance(a[2..], b[2..]) == CountOnes(Xor(a[2], b[2])) + Distance(a[3..], b[3..]);
    assert Distance(a[1..], b[1..]) == CountOnes(Xor(a[1], b[1])) + Distance(a[2..], b[2..]);
  }

  /** Agreement lies in 0 to 256 and is full for equal signatures only. */
  lemma AgreeIsFullIff(a: Sig, b: Sig)
    ensures 0 <= Agree(a, b) <= R_BITS && (Agree(a, b) == R_BITS <==> a == b)
  {
    DistanceOfFour(a, b);
    WordDistance(a[0], b[0]); WordDistance(a[1], b[1]); WordDistance(a[2], b[2]); WordDistance(a[3], b[3]);
    if a[0] == b[0] && a[1] == b[1] && a[2] == b[2] && a[3] == b[3] { assert a == b; }
  }

  /** best_match: the first of the registry's best agreements. */
  method BestMatch(query: Sig, registry: seq<Sig>) returns (best: Option<(nat, int)>)
    ensures best.None? <==> registry == []
    ensures best.Some? ==>
              && best.value.0 < |registry| && best.value.1 == Agree(query, registry[best.value.0])
              && (forall i | 0 <= i < |registry| :: Agree(query, registry[i]) <= best.value.1)
              && (forall i | 0 <= i < best.value.0 :: Agree(query, registry[i]) < best.value.1)
  {
    best := None;
    for i := 0 to |registry|
      invariant best.None? <==> i == 0
      invariant best.Some? ==>
                  && best.value.0 < i && best.value.1 == Agree(query, registry[best.value.0])
                  && (forall x | 0 <= x < i :: Agree(query, registry[x]) <= best.value.1)
                  && (forall x | 0 <= x < best.value.0 :: Agree(query, registry[x]) < best.value.1)
    {
      var a := Agree(query, registry[i]);
      if best.None? || a > best.value.1 { best := Some((i, a)); }
    }
  }

  /** A stored signature is its own best match, at full agreement. */
  lemma StoredIsFound(query: Sig, registry: seq<Sig>, k: nat, i: nat, a: int)
    requires k < |registry| && registry[k] == query && i < |registry|
    requires a == Agree(query, registry[i]) && forall x | 0 <= x < |registry| :: Agree(query, registry[x]) <= a
    ensures registry[i] == query && a == R_BITS
  {
    AgreeIsFullIff(query, registry[k]);
    AgreeIsFullIff(query, registry[i]);
  }
}
