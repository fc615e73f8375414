/**
 * What the decoders promise of their text (src/tokenizer/gemma4_bpe.c, src/tokenizer/tokenizer.c), from the
 * spellings of the ids, whatever ids are given.
 */
module DecodeLaw {
  import opened Common
  import opened Gpt2Bytes
  import opened Gpt2Law
  import Blocks = Gemma4Decode
  import Spelled = SpellingDecode

  /** Each id gives its text, and these one after the other are the whole. */
  ghost predicate OneByOne(says: (int, bytes) -> bool, ids: seq<int>, text: bytes) {
    exists texts: seq<bytes> :: |texts| == |ids| && AllSay(says, ids, texts) && text == Flatten(texts)
  }

  ghost predicate AllSay(says: (int, bytes) -> bool, ids: seq<int>, texts: seq<bytes>) {
    |texts| == |ids| && forall i | 0 <= i < |ids| :: says(ids[i], texts[i])
  }

  lemma OneByOneCons(says: (int, bytes) -> bool, id: int, t: bytes, ids: seq<int>, text: bytes)
    requires says(id, t) && OneByOne(says, ids, text)
    ensures OneByOne(says, [id] + ids, t + text)
  {
    var texts: seq<bytes> :| |texts| == |ids| && AllSay(says, ids, texts) && text == Flatten(texts);
    assert AllSay(says, [id] + ids, [t] + texts);
    assert ([t] + texts)[1..] == texts;
  }

  // ---- the gemma4 decoder ----

  /** The value of a hexadecimal digit: 0 to 9, and letters of either case from 10. */
  predicate IsDigit(c: byte, v: nat) {
    if v < 10 then c == '0' as int + v else v < 16 && (c == 'A' as int + v - 10 || c == 'a' as int + v - 10)
  }

  /** "<0x4A>" or "<0x4a>" for 0x4A. */
  predicate NamesByte(w: bytes, hi: nat, lo: nat) {
    && hi < 16 && |w| == 6 && w[..3] == [0x3C, 0x30, 0x78] && w[5] == 0x3E
    && IsDigit(w[3], hi) && IsDigit(w[4], lo)
  }

  const BLOCK_SIGN: bytes := [0xE2, 0x96, 0x81]

  /** A piece of a spelling: U+2581, which gives a space, or one byte where there is none, which gives itself. */
  predicate IsShown(w: bytes, at: nat, piece: bytes, b: byte) {
    && at + |piece| <= |w| && w[at..at + |piece|] == piece
    && if at + 3 <= |w| && w[at..at + 3] == BLOCK_SIGN then piece == BLOCK_SIGN && b == 0x20 else piece == [b]
  }

  /** The text of a spelling, place by place. */
  ghost predicate AreShown(w: bytes, at: nat, text: bytes)
    decreases |text|
  {
    if text == [] then at == |w| else
      exists piece :: IsShown(w, at, piece, text[0]) && AreShown(w, at + |piece|, text[1..])
  }

  /** Skipped ids and ids out of range give nothing, byte names their byte, the others their spelling. */
  ghost predicate BlockToken(tok: seq<bytes>, skip: seq<int>, id: int, text: bytes) {
    if id < 0 || id >= |tok| || id in skip then text == []
    else if IsName(tok[id]) then GivesByte(tok[id], text)
    else AreShown(tok[id], 0, text)
  }

  ghost predicate IsName(w: bytes) { exists hi: nat, lo: nat :: NamesByte(w, hi, lo) }

  ghost predicate GivesByte(w: bytes, text: bytes) {
    exists hi: nat, lo: nat :: NamesByte(w, hi, lo) && |text| == 1 && text[0] as int == 16 * hi + lo
  }

  lemma DigitIs(c: byte, v: nat)
    ensures IsDigit(c, v) <==> Blocks.Hex(c) == v
  {}

  lemma NameIs(w: bytes, hi: nat, lo: nat)
    ensures NamesByte(w, hi, lo) ==> Blocks.IsByteForm(w) && Blocks.ByteValue(w) as int == 16 * hi + lo
    ensures Blocks.IsByteForm(w) && hi == Blocks.Hex(w[3]) && lo == Blocks.Hex(w[4]) ==> NamesByte(w, hi, lo)
  {
    if |w| == 6 {
      DigitIs(w[3], hi);
      DigitIs(w[4], lo);
      assert w[..3] == [w[0], w[1], w[2]];
    }
  }

  lemma NameIsByteForm(w: bytes)
    ensures IsName(w) <==> Blocks.IsByteForm(w)
    ensures Blocks.IsByteForm(w) ==> GivesByte(w, [Blocks.ByteValue(w)])
  {
    forall hi: nat, lo: nat ensures NamesByte(w, hi, lo) ==> Blocks.IsByteForm(w) { NameIs(w, hi, lo); }
    if Blocks.IsByteForm(w) {
      var hi: nat, lo: nat := Blocks.Hex(w[3]), Blocks.Hex(w[4]);
      NameIs(w, hi, lo);
    }
  }

  lemma ShownCons(w: bytes, at: nat, piece: bytes, b: byte, rest: bytes)
    requires IsShown(w, at, piece, b) && AreShown(w, at + |piece|, rest)
    ensures AreShown(w, at, [b] + rest)
  {
    assert ([b] + rest)[1..] == rest;
  }

  predicate BlockHere(w: bytes, at: nat) { at + 2 < |w| && w[at] == 0xE2 && w[at + 1] == 0x96 && w[at + 2] == 0x81 }

  lemma PieceHere(w: bytes, at: nat)
    requires at < |w|
    ensures if BlockHere(w, at) then IsShown(w, at, BLOCK_SIGN, 0x20) else IsShown(w, at, [w[at]], w[at])
  {
    if at + 3 <= |w| { assert w[at..at + 3] == [w[at], w[at + 1], w[at + 2]]; }
  }

  lemma {:induction false} UnescapedIsShown(w: bytes, at: nat)
    requires at <= |w|
    ensures AreShown(w, at, Blocks.Unescape(w[at..]))
    decreases |w| - at
  {
    if at < |w| {
      PieceHere(w, at);
      Blocks.UnescapeStep(w, at);
      if BlockHere(w, at) {
        UnescapedIsShown(w, at + 3);
        ShownCons(w, at, BLOCK_SIGN, 0x20, Blocks.Unescape(w[at + 3..]));
      } else {
        UnescapedIsShown(w, at + 1);
        ShownCons(w, at, [w[at]], w[at], Blocks.Unescape(w[at + 1..]));
      }
    }
  }

  lemma TokenIsLawful(tok: seq<bytes>, skip: seq<int>, id: int)
    ensures BlockToken(tok, skip, id, Blocks.TokenText(tok, skip, id))
  {
    if 0 <= id < |tok| && id !in skip {
      NameIsByteForm(tok[id]);
      UnescapedIsShown(tok[id], 0);
      assert tok[id][0..] == tok[id];
    }
  }

  /** The gemma4 decoder gives every id its text. */
  lemma {:induction false} Gemma4DecodeKeepsLaw(tok: seq<bytes>, skip: seq<int>, ids: seq<int>)
    ensures OneByOne((id, text) => BlockToken(tok, skip, id, text), ids, Blocks.DecodeText(tok, skip, ids))
  {
    var says := (id, text) => BlockToken(tok, skip, id, text);
    if ids == [] {
      assert AllSay(says, [], []);
    } else {
      TokenIsLawful(tok, skip, ids[0]);
      Gemma4DecodeKeepsLaw(tok, skip, ids[1..]);
      OneByOneCons(says, ids[0], Blocks.TokenText(tok, skip, ids[0]), ids[1..], Blocks.DecodeText(tok, skip, ids[1..]));
      assert [ids[0]] + ids[1..] == ids;
    }
  }

  // ---- the other decoder ----

  /** The codepoint that stands for a byte: the byte itself if it is shown, else the next one from U+0100 on. */
  predicate StandsFor(cp: int, b: byte) { if ShownByte(b) then cp == b else cp == 256 + HiddenBelow(b) }

  ghost predicate StandsForNone(cp: int) { forall b: byte :: !StandsFor(cp, b) }

  /** A codepoint of a spelling gives the byte it stands for, or its own bytes. */
  ghost predicate GivesPart(w: bytes, cp: int, a: nat, b: nat, part: bytes) {
    && a <= b <= |w|
    && if StandsForNone(cp) then part == w[a..b] else |part| == 1 && StandsFor(cp, part[0])
  }

  ghost predicate SpellingLaw(w: bytes, a: nat, text: bytes)
    decreases |w| - a
  {
    if a >= |w| then a == |w| && text == [] else
      exists cp: int, b: nat, part: bytes, rest: bytes ::
        Reads(w, cp, a, b, part) && text == part + rest && SpellingLaw(w, b, rest)
  }

  ghost predicate Reads(w: bytes, cp: int, a: nat, b: nat, part: bytes) {
    a < b && ReadsAt(w, cp, a, b) && GivesPart(w, cp, a, b, part)
  }

  lemma SpellingCons(w: bytes, cp: int, a: nat, b: nat, part: bytes, rest: bytes)
    requires a < |w| && Reads(w, cp, a, b, part) && SpellingLaw(w, b, rest)
    ensures SpellingLaw(w, a, part + rest)
  {}

  ghost predicate SpelledToken(tok: seq<bytes>, id: int, text: bytes) {
    if 0 <= id < |tok| then SpellingLaw(tok[id], 0, text) else text == []
  }

  lemma StandsIs(cp: int, b: byte)
    ensures StandsFor(cp, b) <==> ByteOf(cp) == b
  {
    HiddenIs(b);
    AlphabetInverse(b);
  }

  /** What the decoder writes for one codepoint. */
  function PartText(w: bytes, cp: int, a: nat, b: nat): bytes
    requires a <= b <= |w|
  {
    if cp <= MAX_CP && ByteOf(cp) >= 0 then [ByteOf(cp) as byte] else w[a..b]
  }

  lemma PartIs(w: bytes, cp: int, a: nat, b: nat)
    requires a < b <= |w| && cp >= 0 && ReadsAt(w, cp, a, b)
    ensures Reads(w, cp, a, b, PartText(w, cp, a, b))
  {
    forall x: byte ensures StandsFor(cp, x) <==> ByteOf(cp) == x { StandsIs(cp, x); }
    if ByteOf(cp) >= 0 { assert StandsFor(cp, ByteOf(cp) as byte); }
  }

  lemma ReadsHere(w: bytes, a: nat) returns (cp: int, b: nat, part: bytes)
    requires a < |w|
    ensures Reads(w, cp, a, b, part) && b <= |w| && SpellingText(w[a..]) == part + SpellingText(w[b..])
  {
    var r := CpDecode(w[a..]);
    cp, b := r.0, a + r.1;
    part := PartText(w, cp, a, b);
    Spelled.SpellingStep(w, a, cp, b - a, part);
    PartIs(w, cp, a, b);
  }

  lemma {:induction false} SpellingKeepsLaw(w: bytes, a: nat)
    requires a <= |w|
    ensures SpellingLaw(w, a, SpellingText(w[a..]))
    decreases |w| - a
  {
    if a < |w| {
      var cp, b, part := ReadsHere(w, a);
      SpellingKeepsLaw(w, b);
      SpellingCons(w, cp, a, b, part, SpellingText(w[b..]));
    }
  }

  /** The other decoder gives every id its spelling in bytes. */
  lemma {:induction false} SpellingDecodeKeepsLaw(tok: seq<bytes>, ids: seq<int>)
    ensures OneByOne((id, text) => SpelledToken(tok, id, text), ids, Spelled.DecodeText(tok, ids))
  {
    var says := (id, text) => SpelledToken(tok, id, text);
    if ids == [] {
      assert AllSay(says, [], []);
    } else {
      var id := ids[0];
      if 0 <= id < |tok| {
        SpellingKeepsLaw(tok[id], 0);
        assert tok[id][0..] == tok[id];
      }
      SpellingDecodeKeepsLaw(tok, ids[1..]);
      OneByOneCons(says, id, Spelled.IdText(tok, id), ids[1..], Spelled.DecodeText(tok, ids[1..]));
      assert [id] + ids[1..] == ids;
    }
  }
}
