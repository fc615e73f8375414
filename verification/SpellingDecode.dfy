/** sp_tokenizer_decode outside the gemma4 lane (src/tokenizer/tokenizer.c): every id by its spelling. */
module SpellingDecode {
  import opened Common
  import opened Text
  import opened Gpt2Bytes

  /** cp_to_byte as build_byte_maps leaves it. */
  ghost predicate ByteTable(cpToByte: seq<int>) {
    |cpToByte| > MAX_CP && forall c | 0 <= c <= MAX_CP :: cpToByte[c] == ByteOf(c)
  }

  function IdText(tok: seq<bytes>, id: int): bytes { if 0 <= id < |tok| then SpellingText(tok[id]) else [] }

  function DecodeText(tok: seq<bytes>, ids: seq<int>): bytes {
    if ids == [] then [] else IdText(tok, ids[0]) + DecodeText(tok, ids[1..])
  }

  lemma DecodeStep(tok: seq<bytes>, ids: seq<int>, k: nat, done: bytes)
    requires k < |ids| && done + DecodeText(tok, ids[k..]) == DecodeText(tok, ids)
    ensures done + IdText(tok, ids[k]) + DecodeText(tok, ids[k + 1..]) == DecodeText(tok, ids)
  {
    assert ids[k..][1..] == ids[k + 1..];
    Regroup(done, IdText(tok, ids[k]), DecodeText(tok, ids[k + 1..]), DecodeText(tok, ids));
  }

  lemma SpellingStep(w: bytes, i: nat, cp: int, n: nat, part: bytes)
    requires i < |w| && CpDecode(w[i..]) == (cp, n)
    requires part == if cp <= MAX_CP && ByteOf(cp) >= 0 then [ByteOf(cp) as byte] else w[i..i + n]
    ensures i + n <= |w| && SpellingText(w[i..]) == part + SpellingText(w[i + n..])
  {
    var t := w[i..];
    assert t[..n] == w[i..i + n] && t[n..] == w[i + n..];
  }

  method PutAll(b: bytes, out: Buffer)
    requires out.Valid()
    modifies out, out.buf
    ensures out.Valid() && out.text == old(out.text) + b
  {
    for j := 0 to |b|
      invariant out.Valid() && out.text == old(out.text) + b[..j]
    {
      out.Put(b[j]);
    }
  }

  /** Moving the text of one codepoint of a spelling to the text already written. */
  lemma SpellingShift(w: bytes, i: nat, cp: int, n: nat, part: bytes, done: bytes)
    requires i < |w| && CpDecode(w[i..]) == (cp, n) && done + SpellingText(w[i..]) == SpellingText(w)
    requires part == if cp <= MAX_CP && ByteOf(cp) >= 0 then [ByteOf(cp) as byte] else w[i..i + n]
    ensures i + n <= |w| && done + part + SpellingText(w[i + n..]) == SpellingText(w)
  {
    SpellingStep(w, i, cp, n, part);
    Regroup(done, part, SpellingText(w[i + n..]), SpellingText(w));
  }

  /** One decoded codepoint: its byte, or its own encoding when it stands for none. */
  method PartOf(cpToByte: seq<int>, cp: nat, own: bytes) returns (part: bytes)
    requires ByteTable(cpToByte)
    ensures part == if cp <= MAX_CP && ByteOf(cp) >= 0 then [ByteOf(cp) as byte] else own
  {
    var b := if cp <= MAX_CP then cpToByte[cp] else -1;
    part := if b >= 0 then [b as byte] else own;
  }

  method PutSpelling(cpToByte: seq<int>, w: bytes, out: Buffer)
    requires ByteTable(cpToByte)
    requires out.Valid()
    modifies out, out.buf
    ensures out.Valid() && out.text == old(out.text) + SpellingText(w)
  {
    var i: nat := 0;
    ghost var base, done: bytes := out.text, [];
    assert w[0..] == w;
    while i < |w|
      invariant i <= |w| && out.Valid() && out.text == base + done
      invariant done + SpellingText(w[i..]) == SpellingText(w)
    {
      i, done := PutCodepoint(cpToByte, w, i, out, base, done);
    }
    assert w[|w|..] == [] && done + [] == done;
  }

  /** One codepoint of a spelling. */
  method PutCodepoint(cpToByte: seq<int>, w: bytes, i: nat, out: Buffer, ghost base: bytes, ghost done: bytes)
    returns (i': nat, ghost done': bytes)
    requires ByteTable(cpToByte) && out.Valid() && i < |w| && out.text == base + done
    requires done + SpellingText(w[i..]) == SpellingText(w)
    modifies out, out.buf
    ensures out.Valid() && i < i' <= |w| && out.text == base + done'
    ensures done' + SpellingText(w[i'..]) == SpellingText(w)
  {
    var (cp, n) := CpDecode(w[i..]);
    var part := PartOf(cpToByte, cp, w[i..i + n]);
    SpellingShift(w, i, cp, n, part, done);
    Assoc(base, done, part);
    PutAll(part, out);
    done' := done + part;
    i' := i + n;
  }

  method PutId(tok: seq<bytes>, cpToByte: seq<int>, id: int, out: Buffer)
    requires ByteTable(cpToByte) && out.Valid()
    modifies out, out.buf
    ensures out.Valid() && out.text == old(out.text) + IdText(tok, id)
  {
    if 0 <= id < |tok| { PutSpelling(cpToByte, tok[id], out); }
  }

  /** The non-gemma4 branch of sp_tokenizer_decode. */
  method Decode(tok: seq<bytes>, cpToByte: seq<int>, ids: seq<int>, out: Buffer)
    requires ByteTable(cpToByte)
    requires out.Valid() && out.text == []
    modifies out, out.buf
    ensures out.Valid() && out.text == DecodeText(tok, ids)
    ensures out.buf.Length > 0 ==>
      var n := Min(|out.text|, out.buf.Length - 1); out.buf[..n] == out.text[..n] && out.buf[n] == 0
  {
    ghost var done: bytes := [];
    assert ids[0..] == ids;
    for k := 0 to |ids|
      invariant out.Valid() && out.text == done
      invariant done + DecodeText(tok, ids[k..]) == DecodeText(tok, ids)
    {
      DecodeStep(tok, ids, k, done);
      PutId(tok, cpToByte, ids[k], out);
      done := done + IdText(tok, ids[k]);
    }
    DecodeDone(tok, ids, done);
    out.Terminate();
  }

  lemma DecodeDone(tok: seq<bytes>, ids: seq<int>, done: bytes)
    requires done + DecodeText(tok, ids[|ids|..]) == DecodeText(tok, ids)
    ensures done == DecodeText(tok, ids)
  {
    assert done + [] == done;
  }

  lemma {:induction false} DecodeConcat(tok: seq<bytes>, a: seq<int>, b: seq<int>)
    ensures DecodeText(tok, a + b) == DecodeText(tok, a) + DecodeText(tok, b)
  {
    if a == [] {
      assert a + b == b;
    } else {
      assert (a + b)[0] == a[0] && (a + b)[1..] == a[1..] + b;
      DecodeConcat(tok, a[1..], b);
      Assoc(IdText(tok, a[0]), DecodeText(tok, a[1..]), DecodeText(tok, b));
    }
  }

  lemma DecodeOne(tok: seq<bytes>, id: int)
    ensures DecodeText(tok, [id]) == IdText(tok, id)
  {
    assert [id][1..] == [];
  }
}
