/** From final symbols to ids: a vocabulary id where there is one, else one byte token per byte. */
module Fallback {
  import opened Common
  import opened OpenTable
  import opened Vocab
  import opened Text

  function HexDigit(n: nat): byte
    requires n < 16
  {
    if n < 10 then 0x30 + n else 0x41 + n - 10
  }

  /** "<0xNN>" with upper-case hexadecimal digits. */
  function ByteName(b: nat): bytes
    requires b < 256
  {
    [0x3C, 0x30, 0x78, HexDigit(b / 16), HexDigit(b % 16), 0x3E]
  }

  ghost predicate ByteTokens(byteTok: seq<int>, tok: seq<bytes>) {
    |byteTok| == 256 && forall b: nat | b < 256 :: byteTok[b] == Lookup(tok, ByteName(b)) >= 0
  }

  /** The ids of one final symbol: its own, or one byte token per byte. */
  function WordIds(tok: seq<bytes>, w: bytes): seq<int> {
    if Lookup(tok, w) >= 0 then [Lookup(tok, w)] else ByteIds(tok, w)
  }

  function ByteIds(tok: seq<bytes>, w: bytes): (ids: seq<int>)
    ensures |ids| == |w|
  {
    seq(|w|, i requires 0 <= i < |w| => Lookup(tok, ByteName(w[i])))
  }

  function WordsIds(tok: seq<bytes>, ws: seq<bytes>): seq<int> {
    if ws == [] then [] else WordIds(tok, ws[0]) + WordsIds(tok, ws[1..])
  }

  lemma {:induction false} WordsIdsSnoc(tok: seq<bytes>, ws: seq<bytes>, i: nat)
    requires i < |ws|
    ensures WordsIds(tok, ws[..i + 1]) == WordsIds(tok, ws[..i]) + WordIds(tok, ws[i])
    decreases i
  {
    if i == 0 {
      assert ws[..1][1..] == [] && ws[..0] == [];
    } else {
      WordsIdsSnoc(tok, ws[1..], i - 1);
      TakeTail(ws, i);
      WordsHead(tok, ws[..i + 1]);
      WordsHead(tok, ws[..i]);
      Assoc(WordIds(tok, ws[0]), WordsIds(tok, ws[1..][..i - 1]), WordIds(tok, ws[i]));
    }
  }

  lemma WordsHead(tok: seq<bytes>, ws: seq<bytes>)
    requires ws != []
    ensures WordsIds(tok, ws) == WordIds(tok, ws[0]) + WordsIds(tok, ws[1..])
  {}

  method FillByteTokens(tok: seq<bytes>, vocab: StringMap) returns (ok: bool, byteTok: seq<int>)
    requires vocab.Valid() && Indexes(vocab.m, tok)
    ensures ok <==> forall b: nat | b < 256 :: Lookup(tok, ByteName(b)) >= 0
    ensures ok ==> ByteTokens(byteTok, tok)
  {
    byteTok := [];
    for b := 0 to 256
      invariant |byteTok| == b
      invariant forall c: nat | c < b :: byteTok[c] == Lookup(tok, ByteName(c)) >= 0
    {
      var id := vocab.Get(ByteName(b), -1);
      if id < 0 { return false, []; }
      byteTok := byteTok + [id];
    }
    ok := true;
  }

  method EmitBytes(byteTok: seq<int>, tok: seq<bytes>, w: bytes, sink: Sink)
    requires ByteTokens(byteTok, tok) && sink.Valid()
    modifies sink, sink.out
    ensures sink.Valid() && sink.ids == old(sink.ids) + ByteIds(tok, w)
  {
    for b := 0 to |w|
      invariant sink.Valid() && sink.ids == old(sink.ids) + ByteIds(tok, w)[..b]
    {
      sink.Emit(byteTok[w[b]]);
    }
  }
}
