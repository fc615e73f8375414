/** sp_g4_decode (src/tokenizer/gemma4_bpe.c). */
module Gemma4Decode {
  import opened Common
  import opened Text

  /** g4_hex: upper or lower case. */
  function Hex(c: byte): (h: int)
    ensures -1 <= h < 16
  {
    if 0x30 <= c <= 0x39 then c - 0x30
    else if 0x41 <= c <= 0x46 then c - 0x41 + 10
    else if 0x61 <= c <= 0x66 then c - 0x61 + 10
    else -1
  }

  /** "<0xNN>" in the decoder's eyes: six bytes, hexadecimal digits of either case. */
  predicate IsByteForm(w: bytes) {
    && |w| == 6 && w[0] == 0x3C && w[1] == 0x30 && w[2] == 0x78 && w[5] == 0x3E
    && Hex(w[3]) >= 0 && Hex(w[4]) >= 0
  }

  function ByteValue(w: bytes): byte
    requires IsByteForm(w)
  {
    Hex(w[3]) * 16 + Hex(w[4])
  }

  /** Scan bytes, turning each U+2581 met into a space. */
  function Unescape(w: bytes): bytes {
    if w == [] then []
    else if |w| >= 3 && w[..3] == BLOCK then [SPACE] + Unescape(w[3..])
    else [w[0]] + Unescape(w[1..])
  }

  /** No U+2581 anywhere. */
  predicate Verbatim(w: bytes) { forall i: nat | i < |w| :: !BlockAt(w, i) }

  predicate BlockAt(w: bytes, i: nat) { i + 3 <= |w| && w[i..i + 3] == BLOCK }

  /** Unescaping shortens every text that holds U+2581 and keeps the others. */
  lemma {:induction false} UnescapeShortens(w: bytes)
    ensures |Unescape(w)| <= |w|
    ensures Unescape(w) == w <==> Verbatim(w)
  {
    if w != [] {
      if |w| >= 3 && w[..3] == BLOCK {
        UnescapeShortens(w[3..]);
        assert BlockAt(w, 0);
      } else {
        UnescapeShortens(w[1..]);
        VerbatimTail(w);
      }
    }
  }

  lemma VerbatimTail(w: bytes)
    requires w != [] && (|w| >= 3 ==> w[..3] != BLOCK)
    ensures Verbatim(w) <==> Verbatim(w[1..])
  {
    var t := w[1..];
    forall i: nat ensures BlockAt(t, i) <==> BlockAt(w, i + 1) {
      if i + 4 <= |w| { assert t[i..i + 3] == w[i + 1..i + 1 + 3]; }
    }
    forall i: nat ensures BlockAt(w, i) ==> i > 0 && BlockAt(t, i - 1) {
      if BlockAt(w, i) && i > 0 { assert BlockAt(w, i - 1 + 1); }
    }
  }

  /** The text of one id; ids out of range and the skipped specials have none. */
  function TokenText(tok: seq<bytes>, skip: seq<int>, id: int): bytes {
    if id < 0 || id >= |tok| || id in skip then []
    else if IsByteForm(tok[id]) then [ByteValue(tok[id])]
    else Unescape(tok[id])
  }

  function DecodeText(tok: seq<bytes>, skip: seq<int>, ids: seq<int>): bytes {
    if ids == [] then [] else TokenText(tok, skip, ids[0]) + DecodeText(tok, skip, ids[1..])
  }

  lemma {:induction false} DecodeConcat(tok: seq<bytes>, skip: seq<int>, a: seq<int>, b: seq<int>)
    ensures DecodeText(tok, skip, a + b) == DecodeText(tok, skip, a) + DecodeText(tok, skip, b)
  {
    if a == [] {
      assert a + b == b;
    } else {
      assert (a + b)[0] == a[0] && (a + b)[1..] == a[1..] + b;
      DecodeConcat(tok, skip, a[1..], b);
      Assoc(TokenText(tok, skip, a[0]), DecodeText(tok, skip, a[1..]), DecodeText(tok, skip, b));
    }
  }

  lemma DecodeOne(tok: seq<bytes>, skip: seq<int>, id: int)
    ensures DecodeText(tok, skip, [id]) == TokenText(tok, skip, id)
  {
    var one := [id];
    assert one[1..] == [];
  }

  lemma UnescapeStep(w: bytes, i: nat)
    requires i < |w|
    ensures i + 2 < |w| && w[i] == 0xE2 && w[i + 1] == 0x96 && w[i + 2] == 0x81 ==>
              Unescape(w[i..]) == [SPACE] + Unescape(w[i + 3..])
    ensures !(i + 2 < |w| && w[i] == 0xE2 && w[i + 1] == 0x96 && w[i + 2] == 0x81) ==>
              Unescape(w[i..]) == [w[i]] + Unescape(w[i + 1..])
  {
    var u := w[i..];
    assert i + 2 < |w| ==> (u[..3] == BLOCK <==> w[i] == 0xE2 && w[i + 1] == 0x96 && w[i + 2] == 0x81);
    assert i + 2 < |w| ==> u[3..] == w[i + 3..];
    assert u[1..] == w[i + 1..];
  }

  method PutUnescaped(w: bytes, out: Buffer)
    requires out.Valid()
    modifies out, out.buf
    ensures out.Valid() && out.text == old(out.text) + Unescape(w)
  {
    var i := 0;
    ghost var base, done := out.text, [];
    assert w[0..] == w;
    while i < |w|
      invariant i <= |w| && out.Valid() && out.text == base + done
      invariant done + Unescape(w[i..]) == Unescape(w)
    {
      UnescapeStep(w, i);
      var b, n := w[i], 1;
      if i + 2 < |w| && w[i] == 0xE2 && w[i + 1] == 0x96 && w[i + 2] == 0x81 { b, n := SPACE, 3; }
      Regroup(done, [b], Unescape(w[i + n..]), Unescape(w));
      Assoc(base, done, [b]);
      out.Put(b);
      done := done + [b];
      i := i + n;
    }
  }

  lemma DecodeStep(tok: seq<bytes>, skip: seq<int>, ids: seq<int>, k: nat, done: bytes)
    requires k < |ids| && done + DecodeText(tok, skip, ids[k..]) == DecodeText(tok, skip, ids)
    ensures done + TokenText(tok, skip, ids[k]) + DecodeText(tok, skip, ids[k + 1..]) == DecodeText(tok, skip, ids)
  {
    assert ids[k..][1..] == ids[k + 1..];
    Regroup(done, TokenText(tok, skip, ids[k]), DecodeText(tok, skip, ids[k + 1..]), DecodeText(tok, skip, ids));
  }

  lemma DecodeDone(tok: seq<bytes>, skip: seq<int>, ids: seq<int>, done: bytes)
    requires done + DecodeText(tok, skip, ids[|ids|..]) == DecodeText(tok, skip, ids)
    ensures done == DecodeText(tok, skip, ids)
  {
    assert done + [] == done;
  }

  /** One id: ids out of range and skipped specials give nothing. */
  method PutToken(tok: seq<bytes>, skip: seq<int>, id: int, out: Buffer)
    requires out.Valid()
    modifies out, out.buf
    ensures out.Valid() && out.text == old(out.text) + TokenText(tok, skip, id)
  {
    if id < 0 || id >= |tok| { return; }
    if id in skip { return; }
    if IsByteForm(tok[id]) {
      out.Put(ByteValue(tok[id]));
    } else {
      PutUnescaped(tok[id], out);
    }
  }

  /** The decoding loop over any list of ids, valid or not. */
  method Decode(tok: seq<bytes>, skip: seq<int>, ids: seq<int>, out: Buffer)
    requires out.Valid() && out.text == []
    modifies out, out.buf
    ensures out.Valid() && out.text == DecodeText(tok, skip, ids)
    ensures out.buf.Length > 0 ==>
      var n := Min(|out.text|, out.buf.Length - 1); out.buf[..n] == out.text[..n] && out.buf[n] == 0
  {
    ghost var done: bytes := [];
    assert ids[0..] == ids;
    for k := 0 to |ids|
      invariant out.Valid() && out.text == done
      invariant done + DecodeText(tok, skip, ids[k..]) == DecodeText(tok, skip, ids)
    {
      DecodeStep(tok, skip, ids, k, done);
      PutToken(tok, skip, ids[k], out);
      done := done + TokenText(tok, skip, ids[k]);
    }
    DecodeDone(tok, skip, ids, done);
    out.Terminate();
  }
}
