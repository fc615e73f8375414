/** sp_tokenizer_encode in the GPT2 lane (src/tokenizer/tokenizer.c), and decoding what it encoded. */
module Gpt2RoundTrip {
  import opened Common
  import opened OpenTable
  import opened Vocab
  import opened MergeSpec
  import opened MergeLines
  import opened Text
  import opened Specials
  import opened Gpt2Bytes
  import opened Gpt2
  import opened SpellingDecode
  import PreTokenizer

  // ---- encoding with specials ----

  /** The ids of one segment; None when a symbol of its text is missing from the vocabulary. */
  function SegmentIds(u: PreTokenizer.Unicode, lines: seq<bytes>, tok: seq<bytes>, g: Segment): Option<seq<int>>
    requires PreTokenizer.Usable(u)
  {
    match g
    case Plain(text) =>
      if Known(tok, TextWords(u, lines, text)) then Some(Ids(tok, TextWords(u, lines, text))) else None
    case Token(sp) => Some([sp.id])
  }

  function SegmentsIds(u: PreTokenizer.Unicode, lines: seq<bytes>, tok: seq<bytes>, gs: seq<Segment>): Option<seq<int>>
    requires PreTokenizer.Usable(u)
  {
    if gs == [] then Some([]) else
    match (SegmentIds(u, lines, tok, gs[0]), SegmentsIds(u, lines, tok, gs[1..]))
    case (Some(a), Some(b)) => Some(a + b)
    case _ => None
  }

  /** What encoding must produce; None is the error return. */
  function EncodeIds(u: PreTokenizer.Unicode, lines: seq<bytes>, tok: seq<bytes>, spec: seq<Special>, parse: bool,
                     s: bytes)
    : Option<seq<int>>
    requires PreTokenizer.Usable(u)
  {
    SegmentsIds(u, lines, tok, Segments(if parse then spec else [], s))
  }

  /** The ids before segment `i` and the segments from there on make up the whole. */
  ghost predicate Encoding(u: PreTokenizer.Unicode, lines: seq<bytes>, tok: seq<bytes>, gs: seq<Segment>, i: nat,
                           done: seq<int>)
    requires PreTokenizer.Usable(u) && i <= |gs|
  {
    SegmentsIds(u, lines, tok, gs) ==
      match SegmentsIds(u, lines, tok, gs[i..]) case None => None case Some(rest) => Some(done + rest)
  }

  lemma EncodingStep(u: PreTokenizer.Unicode, lines: seq<bytes>, tok: seq<bytes>, gs: seq<Segment>, i: nat,
                     done: seq<int>)
    requires PreTokenizer.Usable(u) && i < |gs| && Encoding(u, lines, tok, gs, i, done)
    ensures match SegmentIds(u, lines, tok, gs[i])
            case None => SegmentsIds(u, lines, tok, gs).None?
            case Some(ids) => Encoding(u, lines, tok, gs, i + 1, done + ids)
  {
    var t := gs[i..];
    assert t[0] == gs[i] && t[1..] == gs[i + 1..];
    match (SegmentIds(u, lines, tok, gs[i]), SegmentsIds(u, lines, tok, gs[i + 1..]))
    case (Some(a), Some(b)) => Assoc(done, a, b);
    case _ =>
  }

  lemma EncodingEnds(u: PreTokenizer.Unicode, lines: seq<bytes>, tok: seq<bytes>, gs: seq<Segment>, done: seq<int>)
    requires PreTokenizer.Usable(u)
    ensures Encoding(u, lines, tok, gs, 0, [])
    ensures Encoding(u, lines, tok, gs, |gs|, done) ==> SegmentsIds(u, lines, tok, gs) == Some(done)
  {
    assert gs[0..] == gs && gs[|gs|..] == [];
    assert done + [] == done;
    var all := SegmentsIds(u, lines, tok, gs);
    assert all.Some? ==> [] + all.value == all.value;
  }

  method EncodeSegment(vocab: StringMap, merge: StringMap, tok: seq<bytes>, lines: seq<bytes>,
                       u: PreTokenizer.Unicode, bcp: seq<bytes>, g: Segment, sink: Sink) returns (ok: bool)
    requires vocab.Valid() && Indexes(vocab.m, tok) && merge.Valid() && Indexes(merge.m, lines)
    requires PreTokenizer.Usable(u) && |bcp| == 256 && forall b: byte :: bcp[b] == Encoded(b)
    requires sink.Valid() && sink.out != vocab.e as object && sink.out != merge.e as object
    modifies sink, sink.out
    ensures sink.Valid()
    ensures ok <==> SegmentIds(u, lines, tok, g).Some?
    ensures ok ==> sink.ids == old(sink.ids) + SegmentIds(u, lines, tok, g).value
  {
    match g
    case Plain(text) => ok := EncodeText(vocab, merge, tok, lines, u, bcp, text, sink);
    case Token(sp) =>
      sink.Emit(sp.id);
      ok := true;
  }

  /** The GPT2 branch of sp_tokenizer_encode. */
  method Encode(vocab: StringMap, merge: StringMap, tok: seq<bytes>, lines: seq<bytes>, u: PreTokenizer.Unicode,
                bcp: seq<bytes>, spec: seq<Special>, parse: bool, s: bytes, sink: Sink) returns (ok: bool)
    requires vocab.Valid() && Indexes(vocab.m, tok) && merge.Valid() && Indexes(merge.m, lines)
    requires PreTokenizer.Usable(u) && |bcp| == 256 && forall b: byte :: bcp[b] == Encoded(b)
    requires sink.Valid() && sink.ids == [] && sink.out != vocab.e as object && sink.out != merge.e as object
    modifies sink, sink.out
    ensures sink.Valid()
    ensures EncodeIds(u, lines, tok, spec, parse, s) == if ok then Some(sink.ids) else None
  {
    var gs := Split(spec, s, parse);
    EncodingEnds(u, lines, tok, gs, []);
    for i := 0 to |gs|
      invariant sink.Valid() && Encoding(u, lines, tok, gs, i, sink.ids)
      modifies sink, sink.out
    {
      EncodingStep(u, lines, tok, gs, i, sink.ids);
      ok := EncodeSegment(vocab, merge, tok, lines, u, bcp, gs[i], sink);
      if !ok { return; }
    }
    EncodingEnds(u, lines, tok, gs, sink.ids);
    ok := true;
  }

  // ---- the round trip ----

  /** Every final symbol spells some bytes in full: no symbol ends inside an encoded byte. */
  ghost predicate Spells(w: bytes) { exists x :: w == Spelling(x) }

  lemma {:induction false} SpellingConcat(a: bytes, b: bytes)
    ensures Spelling(a + b) == Spelling(a) + Spelling(b)
  {
    if a == [] {
      assert a + b == b;
    } else {
      assert (a + b)[0] == a[0] && (a + b)[1..] == a[1..] + b;
      SpellingConcat(a[1..], b);
      Assoc(Encoded(a[0]), Spelling(a[1..]), Spelling(b));
    }
  }

  lemma ByteSpells(b: byte)
    ensures Spells(Encoded(b))
  {
    var one := [b];
    assert one[1..] == [];
    assert Encoded(b) == Spelling(one);
  }

  lemma PieceWordsSpell(lines: seq<bytes>, rb: bytes)
    ensures forall w | w in PieceWords(lines, rb) :: Spells(w)
    ensures Flatten(PieceWords(lines, rb)) == Spelling(rb)
  {
    var P: bytes -> bool := w => Spells(w);
    forall w | w in ByteSymbols(rb) ensures P(w) {
      var i :| 0 <= i < |rb| && w == ByteSymbols(rb)[i];
      ByteSpells(rb[i]);
    }
    forall a: bytes, b: bytes {:trigger KeyRank(lines)(a, b)} | P(a) && P(b) && KeyRank(lines)(a, b).Some?
      ensures P(a + b)
    {
      var x :| a == Spelling(x);
      var y :| b == Spelling(y);
      SpellingConcat(x, y);
    }
    MergedInduction(ByteSymbols(rb), KeyRank(lines), P);
    forall w | w in PieceWords(lines, rb) ensures Spells(w) { assert P(w); }
    MergedText(ByteSymbols(rb), KeyRank(lines));
    SymbolsSpell(rb);
  }

  lemma {:induction false} AllWordsSpell(lines: seq<bytes>, pieces: seq<bytes>)
    ensures forall w | w in AllWords(lines, pieces) :: Spells(w)
    ensures Flatten(AllWords(lines, pieces)) == Spelling(Flatten(pieces))
  {
    if pieces != [] {
      PieceWordsSpell(lines, pieces[0]);
      AllWordsSpell(lines, pieces[1..]);
      FlattenConcat(PieceWords(lines, pieces[0]), AllWords(lines, pieces[1..]));
      SpellingConcat(pieces[0], Flatten(pieces[1..]));
    }
  }

  lemma TextWordsSpell(u: PreTokenizer.Unicode, lines: seq<bytes>, s: bytes)
    requires PreTokenizer.Usable(u)
    ensures forall w | w in TextWords(u, lines, s) :: Spells(w)
    ensures Flatten(TextWords(u, lines, s)) == Spelling(s)
  {
    PiecesText(u, s, Codepoints(s, 0), 0);
    assert s[0..] == s;
    AllWordsSpell(lines, Pieces(u, s, Codepoints(s, 0), 0));
  }

  /** Decoding the ids of known symbols, one by one, is decoding their joint spelling. */
  lemma {:induction false} WordsText(tok: seq<bytes>, ws: seq<bytes>)
    requires Known(tok, ws) && forall w | w in ws :: Spells(w)
    ensures DecodeText(tok, Ids(tok, ws)) == SpellingText(Flatten(ws))
  {
    if ws != [] {
      assert ws[0] in ws && Lookup(tok, ws[0]) >= 0;
      assert Ids(tok, ws)[0] == Lookup(tok, ws[0]) && Ids(tok, ws)[1..] == Ids(tok, ws[1..]);
      WordsText(tok, ws[1..]);
      WordThenText(ws[0], Flatten(ws[1..]));
    }
  }

  lemma WordThenText(w: bytes, rest: bytes)
    requires Spells(w)
    ensures SpellingText(w + rest) == SpellingText(w) + SpellingText(rest)
  {
    var x :| w == Spelling(x);
    SpellingRoundTrip(x, rest);
    SpellingRoundTrip(x, []);
    assert w + [] == w && x + [] == x;
  }

  lemma PlainEncoding(u: PreTokenizer.Unicode, lines: seq<bytes>, tok: seq<bytes>, spec: seq<Special>, s: bytes)
    requires PreTokenizer.Usable(u)
    ensures EncodeIds(u, lines, tok, spec, false, s)
            == if s == [] then Some([]) else SegmentIds(u, lines, tok, Plain(s))
  {
    NoSpecials(s, 0, 0);
    assert s[0..] == s;
    if s != [] {
      var one := [Plain(s)];
      assert one[1..] == [];
      assert Segments([], s) == one && SegmentsIds(u, lines, tok, one[1..]) == Some([]);
      var r := SegmentIds(u, lines, tok, Plain(s));
      assert r.Some? ==> r.value + [] == r.value;
    }
  }

  /** The ids of a text whose symbols are known decode to the text. */
  lemma TextDecodes(u: PreTokenizer.Unicode, lines: seq<bytes>, tok: seq<bytes>, s: bytes)
    requires PreTokenizer.Usable(u) && Known(tok, TextWords(u, lines, s))
    ensures DecodeText(tok, Ids(tok, TextWords(u, lines, s))) == s
  {
    TextWordsSpell(u, lines, s);
    WordsText(tok, TextWords(u, lines, s));
    SpellingRoundTrip(s, []);
    assert Spelling(s) + [] == Spelling(s) && s + [] == s;
  }

  /**
   * For every byte string, valid UTF-8 or not: whenever encoding succeeds, decoding the ids
   * gives the bytes back.
   */
  lemma RoundTrip(u: PreTokenizer.Unicode, lines: seq<bytes>, tok: seq<bytes>, spec: seq<Special>, s: bytes)
    requires PreTokenizer.Usable(u)
    ensures var ids := EncodeIds(u, lines, tok, spec, false, s); ids.Some? ==> DecodeText(tok, ids.value) == s
  {
    PlainEncoding(u, lines, tok, spec, s);
    if s != [] && Known(tok, TextWords(u, lines, s)) { TextDecodes(u, lines, tok, s); }
  }

  // ---- with special parsing on ----

  /** What one segment comes back as: a text as itself, a special by the spelling of its token. */
  function SegmentText(tok: seq<bytes>, g: Segment): bytes {
    match g case Plain(text) => text case Token(sp) => IdText(tok, sp.id)
  }

  function SegmentTexts(tok: seq<bytes>, gs: seq<Segment>): (r: seq<bytes>)
    ensures |r| == |gs| && forall i | 0 <= i < |gs| :: r[i] == SegmentText(tok, gs[i])
  {
    seq(|gs|, i requires 0 <= i < |gs| => SegmentText(tok, gs[i]))
  }

  lemma SegmentDecodes(u: PreTokenizer.Unicode, lines: seq<bytes>, tok: seq<bytes>, g: Segment)
    requires PreTokenizer.Usable(u) && SegmentIds(u, lines, tok, g).Some?
    ensures DecodeText(tok, SegmentIds(u, lines, tok, g).value) == SegmentText(tok, g)
  {
    match g
    case Plain(text) => TextDecodes(u, lines, tok, text);
    case Token(sp) => DecodeOne(tok, sp.id);
  }

  lemma {:induction false} SegmentsDecode(u: PreTokenizer.Unicode, lines: seq<bytes>, tok: seq<bytes>, gs: seq<Segment>)
    requires PreTokenizer.Usable(u) && SegmentsIds(u, lines, tok, gs).Some?
    ensures DecodeText(tok, SegmentsIds(u, lines, tok, gs).value) == Flatten(SegmentTexts(tok, gs))
  {
    if gs != [] {
      var a, b := SegmentIds(u, lines, tok, gs[0]), SegmentsIds(u, lines, tok, gs[1..]);
      SegmentDecodes(u, lines, tok, gs[0]);
      SegmentsDecode(u, lines, tok, gs[1..]);
      DecodeConcat(tok, a.value, b.value);
      assert SegmentTexts(tok, gs)[1..] == SegmentTexts(tok, gs[1..]);
    }
  }

  /** Reading a spelling never lengthens it. */
  lemma {:induction false} SpellingShorter(w: bytes)
    ensures |SpellingText(w)| <= |w|
    decreases |w|
  {
    if w != [] { SpellingShorter(w[CpDecode(w).1..]); }
  }

  /** The special comes back: its surface reads as itself in the byte-level alphabet. */
  predicate KeptSpecial(sp: Special) { SpellingText(sp.surf) == sp.surf }

  /**
   * With special parsing on: whenever encoding succeeds, a byte string comes back exactly when every
   * special found in it does.
   */
  lemma RoundTripSpecials(u: PreTokenizer.Unicode, lines: seq<bytes>, tok: seq<bytes>, spec: seq<Special>, s: bytes)
    requires PreTokenizer.Usable(u) && FromVocab(tok, spec) && EncodeIds(u, lines, tok, spec, true, s).Some?
    ensures DecodeText(tok, EncodeIds(u, lines, tok, spec, true, s).value) == s
       <==> forall g | g in Segments(spec, s) && g.Token? :: KeptSpecial(g.special)
  {
    var gs := Segments(spec, s);
    SegmentsDecode(u, lines, tok, gs);
    SegmentsText(spec, s, 0, 0);
    assert s[0..] == s;
    SegmentsComeBack(tok, spec, s, gs);
    if forall g | g in gs && g.Token? :: KeptSpecial(g.special) {
      forall i | 0 <= i < |gs| ensures KeptSegment(gs[i]) { assert gs[i] in gs; }
    }
    if forall i | 0 <= i < |gs| :: KeptSegment(gs[i]) {
      forall g | g in gs && g.Token? ensures KeptSpecial(g.special) {
        var i :| 0 <= i < |gs| && gs[i] == g;
        assert KeptSegment(gs[i]);
      }
    }
  }

  predicate KeptSegment(g: Segment) { g.Token? ==> KeptSpecial(g.special) }

  lemma OneComesBack(tok: seq<bytes>, spec: seq<Special>, s: bytes, g: Segment)
    requires FromVocab(tok, spec) && g in Segments(spec, s)
    ensures |SegmentText(tok, g)| <= |Surface(g)|
    ensures SegmentText(tok, g) == Surface(g) <==> KeptSegment(g)
  {
    TokensAreListed(spec, s, 0, 0);
    if g.Token? { SpellingShorter(g.special.surf); }
  }

  lemma SegmentsComeBack(tok: seq<bytes>, spec: seq<Special>, s: bytes, gs: seq<Segment>)
    requires FromVocab(tok, spec) && gs == Segments(spec, s)
    ensures Flatten(SegmentTexts(tok, gs)) == SurfaceText(gs) <==> forall i | 0 <= i < |gs| :: KeptSegment(gs[i])
  {
    var texts := SegmentTexts(tok, gs);
    forall i | 0 <= i < |gs|
      ensures |texts[i]| <= |Surface(gs[i])|
      ensures texts[i] == Surface(gs[i]) <==> KeptSegment(gs[i])
    {
      assert gs[i] in gs;
      OneComesBack(tok, spec, s, gs[i]);
    }
    ShorterIff(gs, texts);
  }

  /** A byte-level vocabulary: all 256 byte symbols, and the concatenation of every merge line. */
  ghost predicate ByteLevel(tok: seq<bytes>, lines: seq<bytes>) {
    && (forall b: byte :: Lookup(tok, Encoded(b)) >= 0)
    && (forall i | 0 <= i < |lines| && Sides(lines[i]).Some? ::
         Lookup(tok, Sides(lines[i]).value.0 + Sides(lines[i]).value.1) >= 0)
  }

  /** What keeps the space-joined merge key unambiguous. */
  ghost predicate CleanSymbol(tok: seq<bytes>, w: bytes) {
    w != [] && (forall i | 0 <= i < |w| :: w[i] != SPACE) && Lookup(tok, w) >= 0
  }

  lemma JoinIsClean(tok: seq<bytes>, lines: seq<bytes>, a: bytes, b: bytes)
    requires ByteLevel(tok, lines) && CleanSymbol(tok, a) && CleanSymbol(tok, b)
    requires Lookup(lines, a + [SPACE] + b) >= 0
    ensures CleanSymbol(tok, a + b)
  {
    JoinSplits(a, b);
    assert Sides(lines[Lookup(lines, a + [SPACE] + b)]) == Some((a, b));
  }

  lemma PieceWordsKnown(tok: seq<bytes>, lines: seq<bytes>, rb: bytes)
    requires ByteLevel(tok, lines)
    ensures Known(tok, PieceWords(lines, rb))
  {
    var P: bytes -> bool := w => CleanSymbol(tok, w);
    forall w | w in ByteSymbols(rb) ensures P(w) {}
    forall a: bytes, b: bytes {:trigger KeyRank(lines)(a, b)} | P(a) && P(b) && KeyRank(lines)(a, b).Some?
      ensures P(a + b)
    {
      JoinIsClean(tok, lines, a, b);
    }
    MergedInduction(ByteSymbols(rb), KeyRank(lines), P);
    forall w | w in PieceWords(lines, rb) ensures Lookup(tok, w) >= 0 { assert P(w); }
  }

  lemma {:induction false} AllWordsKnown(tok: seq<bytes>, lines: seq<bytes>, pieces: seq<bytes>)
    requires ByteLevel(tok, lines)
    ensures Known(tok, AllWords(lines, pieces))
  {
    if pieces != [] {
      PieceWordsKnown(tok, lines, pieces[0]);
      AllWordsKnown(tok, lines, pieces[1..]);
      KnownConcat(tok, PieceWords(lines, pieces[0]), AllWords(lines, pieces[1..]));
    }
  }

  lemma {:induction false} SegmentsKnown(u: PreTokenizer.Unicode, lines: seq<bytes>, tok: seq<bytes>, gs: seq<Segment>)
    requires PreTokenizer.Usable(u) && ByteLevel(tok, lines)
    ensures SegmentsIds(u, lines, tok, gs).Some?
  {
    if gs != [] {
      SegmentsKnown(u, lines, tok, gs[1..]);
      if gs[0].Plain? {
        AllWordsKnown(tok, lines, Pieces(u, gs[0].text, Codepoints(gs[0].text, 0), 0));
      }
    }
  }

  /** With a byte-level vocabulary encoding never fails, so every byte string survives the round trip. */
  lemma TotalRoundTrip(u: PreTokenizer.Unicode, lines: seq<bytes>, tok: seq<bytes>, spec: seq<Special>, s: bytes)
    requires PreTokenizer.Usable(u) && ByteLevel(tok, lines)
    ensures var ids := EncodeIds(u, lines, tok, spec, false, s); ids.Some? && DecodeText(tok, ids.value) == s
    ensures EncodeIds(u, lines, tok, spec, true, s).Some?
  {
    SegmentsKnown(u, lines, tok, Segments([], s));
    SegmentsKnown(u, lines, tok, Segments(spec, s));
    RoundTrip(u, lines, tok, spec, s);
  }
}
