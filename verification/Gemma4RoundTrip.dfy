/** Decoding what the gemma4 lane encoded, for every byte string. */
module Gemma4RoundTrip {
  import opened Common
  import opened Vocab
  import opened MergeSpec
  import opened Text
  import opened Fallback
  import opened Utf8
  import opened Specials
  import opened MergeLines
  import opened Gemma4Build
  import opened Gemma4Merge
  import opened Gemma4Encode
  import opened Gemma4Decode
  import opened Gemma4Reading

  /** Spellings a text id can have: a character, a run of newlines, or the result of a merge line. */
  ghost predicate TextSpelling(merges: seq<bytes>, w: bytes) {
    || OneChar(w)
    || (w != [] && forall i | 0 <= i < |w| :: w[i] == LF)
    || MergeResult(merges, w)
  }

  ghost predicate MergeResult(merges: seq<bytes>, w: bytes) {
    exists i :: 0 <= i < |merges| && Sides(merges[i]).Some? && w == Sides(merges[i]).value.0 + Sides(merges[i]).value.1
  }

  /**
   * What the vocabulary must satisfy, all of it checkable when it is loaded: U+2581 is a token,
   * no merge result is spelled like a byte token, and no skipped special is spelled like
   * ordinary text or like a byte token.
   */
  ghost predicate CleanVocabulary(tok: seq<bytes>, merges: seq<bytes>, skip: seq<int>) {
    && Buildable(tok, merges)
    && Lookup(tok, BLOCK) >= 0
    && (forall w | MergeResult(merges, w) :: !IsByteForm(w))
    && (forall id | id in skip && 0 <= id < |tok| ::
         !TextSpelling(merges, tok[id]) && forall b: nat | b < 256 :: tok[id] != ByteName(b))
  }

  lemma ByteNameValue(b: byte)
    ensures IsByteForm(ByteName(b)) && ByteValue(ByteName(b)) == b
  {}

  /** Byte tokens give the bytes back. */
  lemma {:induction false} ByteIdsText(tok: seq<bytes>, merges: seq<bytes>, skip: seq<int>, w: bytes)
    requires CleanVocabulary(tok, merges, skip)
    ensures DecodeText(tok, skip, ByteIds(tok, w)) == w
  {
    if w == [] {
    } else {
      var id := Lookup(tok, ByteName(w[0]));
      ByteNameValue(w[0]);
      assert TokenText(tok, skip, id) == [w[0]];
      assert ByteIds(tok, w)[1..] == ByteIds(tok, w[1..]);
      ByteIdsText(tok, merges, skip, w[1..]);
    }
  }

  /** What every symbol of an encoded text satisfies. */
  ghost predicate TextWord(tok: seq<bytes>, merges: seq<bytes>, w: bytes) {
    WellFormed(w) && TextSpelling(merges, w) && !IsByteForm(w) && (Lookup(tok, w) >= 0 || OneChar(w))
  }

  lemma CharIsTextWord(tok: seq<bytes>, merges: seq<bytes>, c: bytes)
    requires OneChar(c)
    ensures TextWord(tok, merges, c)
  {
    OneCharWellFormed(c);
  }

  lemma JoinIsTextWord(tok: seq<bytes>, merges: seq<bytes>, skip: seq<int>, a: bytes, b: bytes)
    requires CleanVocabulary(tok, merges, skip) && TextWord(tok, merges, a) && TextWord(tok, merges, b)
    requires LineRank(merges, a, b) >= 0
    ensures TextWord(tok, merges, a + b)
  {
    WellFormedConcat(a, b);
    var i := LineRank(merges, a, b);
    assert Representable(tok, merges[i]);
    assert MergeResult(merges, a + b);
  }

  // ---- words ----

  /** A broken symbol that is no token: never joined, and spelled out byte by byte. */
  predicate Broken(tok: seq<bytes>, w: bytes) { !WellFormed(w) && Lookup(tok, w) < 0 }

  ghost predicate Word(tok: seq<bytes>, merges: seq<bytes>, w: bytes) {
    TextWord(tok, merges, w) || Broken(tok, w)
  }

  ghost predicate AllWords(tok: seq<bytes>, merges: seq<bytes>, ws: seq<bytes>) {
    forall i | 0 <= i < |ws| :: Word(tok, merges, ws[i])
  }

  /** Only tokens are joined, and a join reads as its two sides do. */
  lemma JoinReads(tok: seq<bytes>, merges: seq<bytes>, skip: seq<int>, a: bytes, b: bytes)
    requires CleanVocabulary(tok, merges, skip) && Word(tok, merges, a) && Word(tok, merges, b)
    requires LineRank(merges, a, b) >= 0
    ensures Word(tok, merges, a + b) && Reads(a + b) == Reads(a) + Reads(b)
  {
    assert Representable(tok, merges[LineRank(merges, a, b)]);
    JoinIsTextWord(tok, merges, skip, a, b);
    FoldConcat(a, b);
  }

  /** Merging keeps words words and the text they read as. */
  lemma {:induction false} MergedReads(tok: seq<bytes>, merges: seq<bytes>, skip: seq<int>, ws: seq<bytes>)
    requires CleanVocabulary(tok, merges, skip) && AllWords(tok, merges, ws)
    ensures AllWords(tok, merges, Merged(ws, MergeRank(merges)))
    ensures ReadAll(Merged(ws, MergeRank(merges))) == ReadAll(ws)
    decreases |ws|
  {
    match Best(ws, MergeRank(merges))
    case None =>
    case Some(k) =>
      assert Beats(ws, MergeRank(merges), k, k);
      JoinReads(tok, merges, skip, ws[k], ws[k + 1]);
      MergeAtReads(ws, k);
      MergedReads(tok, merges, skip, MergeAt(ws, k));
  }

  lemma WordText(tok: seq<bytes>, merges: seq<bytes>, skip: seq<int>, w: bytes)
    requires CleanVocabulary(tok, merges, skip) && Word(tok, merges, w)
    ensures DecodeText(tok, skip, WordIds(tok, w)) == Reads(w)
  {
    var id := Lookup(tok, w);
    if id >= 0 {
      DecodeOne(tok, skip, id);
      UnescapeIsFold(w);
    } else {
      ByteIdsText(tok, merges, skip, w);
      if OneChar(w) { CharReads(w); }
    }
  }

  lemma {:induction false} WordsText(tok: seq<bytes>, merges: seq<bytes>, skip: seq<int>, ws: seq<bytes>)
    requires CleanVocabulary(tok, merges, skip) && AllWords(tok, merges, ws)
    ensures DecodeText(tok, skip, WordsIds(tok, ws)) == ReadAll(ws)
  {
    if ws != [] {
      WordText(tok, merges, skip, ws[0]);
      WordsText(tok, merges, skip, ws[1..]);
      DecodeConcat(tok, skip, WordIds(tok, ws[0]), WordsIds(tok, ws[1..]));
      assert EachReads(ws)[1..] == EachReads(ws[1..]);
    }
  }

  // ---- pieces ----

  lemma PieceText(tok: seq<bytes>, merges: seq<bytes>, skip: seq<int>, s: bytes, newlines: bool)
    requires CleanVocabulary(tok, merges, skip) && AllWords(tok, merges, Chars(s, Gemma4)) && s != []
    requires newlines ==> forall i | 0 <= i < |s| :: s[i] == LF
    ensures DecodeText(tok, skip, PieceIds(tok, merges, s, newlines)) == ReadAll(Chars(s, Gemma4))
  {
    if newlines && Lookup(tok, s) >= 0 {
      NewlinesRead(s);
      DecodeOne(tok, skip, Lookup(tok, s));
      UnescapeIsFold(s);
      assert s[0] == LF;
    } else {
      MergedReads(tok, merges, skip, Chars(s, Gemma4));
      WordsText(tok, merges, skip, Merged(Chars(s, Gemma4), MergeRank(merges)));
    }
  }

  /** No broken symbol of the text is a token. */
  predicate Unbroken(tok: seq<bytes>, e: bytes) {
    forall w | w in CutText(e) :: WellFormed(w) || Lookup(tok, w) < 0
  }

  lemma {:induction false} SymbolsAreWords(tok: seq<bytes>, merges: seq<bytes>, e: bytes)
    requires Unbroken(tok, e)
    ensures AllWords(tok, merges, CutText(e))
    decreases |e|
  {
    if e != [] {
      var w, rest := e[..StepLen(e)], e[StepLen(e)..];
      assert CutText(e)[0] == w && w in CutText(e);
      if WellFormed(w) {
        SymbolForm(e);
        CharIsTextWord(tok, merges, w);
      }
      forall x | x in CutText(rest) ensures x in CutText(e) {}
      SymbolsAreWords(tok, merges, rest);
    }
  }

  /** The ids of an escaped text decode to what its symbols read as. */
  lemma {:induction false} RunsText(tok: seq<bytes>, merges: seq<bytes>, skip: seq<int>, e: bytes)
    requires CleanVocabulary(tok, merges, skip) && AllWords(tok, merges, CutText(e))
    ensures DecodeText(tok, skip, RunsIds(tok, merges, e)) == ReadAll(CutText(e))
    decreases |e|
  {
    if e != [] {
      var n := RunEnd(e, e[0] == LF, 1);
      var piece, rest := e[..n], e[n..];
      CutRun(e, n);
      SplitWords(tok, merges, Chars(piece, Gemma4), CutText(rest));
      PieceText(tok, merges, skip, piece, e[0] == LF);
      RunsText(tok, merges, skip, rest);
      RunsHead(tok, merges, e, n, piece, rest);
      DecodeConcat(tok, skip, PieceIds(tok, merges, piece, e[0] == LF), RunsIds(tok, merges, rest));
      ReadAllConcat(Chars(piece, Gemma4), CutText(rest));
    }
  }

  lemma SplitWords(tok: seq<bytes>, merges: seq<bytes>, a: seq<bytes>, b: seq<bytes>)
    requires AllWords(tok, merges, a + b)
    ensures AllWords(tok, merges, a) && AllWords(tok, merges, b)
  {
    assert forall i | 0 <= i < |a| :: a[i] == (a + b)[i];
    assert forall i | 0 <= i < |b| :: b[i] == (a + b)[|a| + i];
  }

  /** A skipped begin token adds nothing when decoded. */
  lemma BeginIsSilent(tok: seq<bytes>, skip: seq<int>, bos: int, ids: seq<int>)
    requires bos < 0 || bos in skip
    ensures DecodeText(tok, skip, (if bos >= 0 then [bos] else []) + ids) == DecodeText(tok, skip, ids)
  {
    DecodeConcat(tok, skip, if bos >= 0 then [bos] else [], ids);
    if bos >= 0 { DecodeOne(tok, skip, bos); }
  }

  /** Without special parsing the text is one fragment, and the begin token adds nothing when decoded. */
  lemma PlainDecode(tok: seq<bytes>, merges: seq<bytes>, skip: seq<int>, spec: seq<Special>, bos: int, s: bytes)
    requires bos < 0 || bos in skip
    ensures DecodeText(tok, skip, EncodeIds(tok, merges, spec, false, bos, s))
            == DecodeText(tok, skip, FragmentIds(tok, merges, s))
  {
    NoSpecials(s, 0, 0);
    assert s[0..] == s;
    PlainIds(tok, merges, s);
    BeginIsSilent(tok, skip, bos, FragmentIds(tok, merges, s));
  }

  lemma PlainIds(tok: seq<bytes>, merges: seq<bytes>, s: bytes)
    ensures SegmentsIds(tok, merges, PlainSegment(s)) == FragmentIds(tok, merges, s)
  {
    if s != [] {
      var one := [Plain(s)];
      assert one[1..] == [];
    }
  }

  // ---- the round trip ----

  /** What comes back for any text of which no broken symbol is a token. */
  lemma DecodeEncode(tok: seq<bytes>, merges: seq<bytes>, skip: seq<int>, spec: seq<Special>, bos: int, s: bytes)
    requires CleanVocabulary(tok, merges, skip) && Unbroken(tok, Escape(s)) && (bos < 0 || bos in skip)
    ensures DecodeText(tok, skip, EncodeIds(tok, merges, spec, false, bos, s)) == Returned(s)
  {
    PlainDecode(tok, merges, skip, spec, bos, s);
    SymbolsAreWords(tok, merges, Escape(s));
    RunsText(tok, merges, skip, Escape(s));
  }

  lemma RoundTripUnbroken(tok: seq<bytes>, merges: seq<bytes>, skip: seq<int>, spec: seq<Special>, bos: int, s: bytes)
    requires CleanVocabulary(tok, merges, skip) && Unbroken(tok, Escape(s)) && (bos < 0 || bos in skip)
    ensures DecodeText(tok, skip, EncodeIds(tok, merges, spec, false, bos, s)) == s <==> Kept(s)
  {
    DecodeEncode(tok, merges, skip, spec, bos, s);
    KeptIff(s);
  }

  /** For every byte string: it comes back exactly when it is kept. */
  lemma RoundTrip(tok: seq<bytes>, merges: seq<bytes>, skip: seq<int>, spec: seq<Special>, bos: int, s: bytes)
    requires CleanVocabulary(tok, merges, skip) && AllWellFormed(tok) && (bos < 0 || bos in skip)
    ensures DecodeText(tok, skip, EncodeIds(tok, merges, spec, false, bos, s)) == s <==> Kept(s)
  {
    forall w | w in CutText(Escape(s)) ensures WellFormed(w) || Lookup(tok, w) < 0 {
      assert Lookup(tok, w) >= 0 ==> WellFormed(tok[Lookup(tok, w)]);
    }
    RoundTripUnbroken(tok, merges, skip, spec, bos, s);
  }

  /** Well-formed text needs no well-formed tokens: every U+2581 reads as a space and nothing else changes. */
  lemma DecodeEncodeWellFormed(tok: seq<bytes>, merges: seq<bytes>, skip: seq<int>, spec: seq<Special>, bos: int,
                               s: bytes)
    requires CleanVocabulary(tok, merges, skip) && WellFormed(s) && (bos < 0 || bos in skip)
    ensures DecodeText(tok, skip, EncodeIds(tok, merges, spec, false, bos, s)) == Fold(s)
  {
    EscapeFolds(s);
    WholeTextReads(Escape(s));
    forall w | w in CutText(Escape(s)) ensures WellFormed(w) {
      OneCharWellFormed(w);
    }
    DecodeEncode(tok, merges, skip, spec, bos, s);
  }

  /** A well-formed text comes back exactly when it has no U+2581. */
  lemma RoundTripWellFormed(tok: seq<bytes>, merges: seq<bytes>, skip: seq<int>, spec: seq<Special>, bos: int, s: bytes)
    requires CleanVocabulary(tok, merges, skip) && WellFormed(s) && (bos < 0 || bos in skip)
    ensures DecodeText(tok, skip, EncodeIds(tok, merges, spec, false, bos, s)) == s <==> !HasBlock(s)
    ensures Kept(s) <==> !HasBlock(s)
  {
    DecodeEncodeWellFormed(tok, merges, skip, spec, bos, s);
    FoldLength(s);
    KeptWellFormed(s);
  }

  // ---- with special parsing on ----

  /** What one segment comes back as: a special by the text of its token. */
  function SegmentText(tok: seq<bytes>, skip: seq<int>, g: Segment): bytes {
    match g case Plain(text) => Returned(text) case Token(sp) => TokenText(tok, skip, sp.id)
  }

  function SegmentTexts(tok: seq<bytes>, skip: seq<int>, gs: seq<Segment>): (r: seq<bytes>)
    ensures |r| == |gs| && forall i | 0 <= i < |gs| :: r[i] == SegmentText(tok, skip, gs[i])
  {
    seq(|gs|, i requires 0 <= i < |gs| => SegmentText(tok, skip, gs[i]))
  }

  lemma FragmentText(tok: seq<bytes>, merges: seq<bytes>, skip: seq<int>, s: bytes)
    requires CleanVocabulary(tok, merges, skip) && Unbroken(tok, Escape(s))
    ensures DecodeText(tok, skip, FragmentIds(tok, merges, s)) == Returned(s)
  {
    SymbolsAreWords(tok, merges, Escape(s));
    RunsText(tok, merges, skip, Escape(s));
  }

  lemma SegmentDecodes(tok: seq<bytes>, merges: seq<bytes>, skip: seq<int>, g: Segment)
    requires CleanVocabulary(tok, merges, skip) && (g.Plain? ==> Unbroken(tok, Escape(g.text)))
    ensures DecodeText(tok, skip, SegmentIds(tok, merges, g)) == SegmentText(tok, skip, g)
  {
    match g
    case Plain(text) => FragmentText(tok, merges, skip, text);
    case Token(sp) => DecodeOne(tok, skip, sp.id);
  }

  lemma {:induction false} SegmentsDecode(tok: seq<bytes>, merges: seq<bytes>, skip: seq<int>, gs: seq<Segment>)
    requires CleanVocabulary(tok, merges, skip)
    requires forall g | g in gs && g.Plain? :: Unbroken(tok, Escape(g.text))
    ensures DecodeText(tok, skip, SegmentsIds(tok, merges, gs)) == Flatten(SegmentTexts(tok, skip, gs))
  {
    if gs != [] {
      assert gs[0] in gs;
      SegmentDecodes(tok, merges, skip, gs[0]);
      forall g | g in gs[1..] ensures g in gs {}
      SegmentsDecode(tok, merges, skip, gs[1..]);
      DecodeConcat(tok, skip, SegmentIds(tok, merges, gs[0]), SegmentsIds(tok, merges, gs[1..]));
      assert SegmentTexts(tok, skip, gs)[1..] == SegmentTexts(tok, skip, gs[1..]);
    }
  }

  lemma WholeTokensUnbroken(tok: seq<bytes>, e: bytes)
    requires AllWellFormed(tok)
    ensures Unbroken(tok, e)
  {
    forall w | w in CutText(e) ensures WellFormed(w) || Lookup(tok, w) < 0 {
      assert Lookup(tok, w) >= 0 ==> WellFormed(tok[Lookup(tok, w)]);
    }
  }

  /** With special parsing on, any byte string comes back segment by segment. */
  lemma DecodeSpecials(tok: seq<bytes>, merges: seq<bytes>, skip: seq<int>, spec: seq<Special>, bos: int, s: bytes)
    requires CleanVocabulary(tok, merges, skip) && AllWellFormed(tok) && (bos < 0 || bos in skip)
    ensures DecodeText(tok, skip, EncodeIds(tok, merges, spec, true, bos, s))
         == Flatten(SegmentTexts(tok, skip, Segments(spec, s)))
  {
    var gs := Segments(spec, s);
    forall g | g in gs && g.Plain? ensures Unbroken(tok, Escape(g.text)) { WholeTokensUnbroken(tok, Escape(g.text)); }
    SegmentsDecode(tok, merges, skip, gs);
    BeginIsSilent(tok, skip, bos, SegmentsIds(tok, merges, gs));
  }

  /** A special comes back: it is not skipped, not spelled like a byte token, and holds no U+2581. */
  predicate KeptSpecial(skip: seq<int>, sp: Special) {
    sp.id !in skip && !IsByteForm(sp.surf) && Verbatim(sp.surf)
  }

  predicate KeptSegment(skip: seq<int>, g: Segment) {
    match g case Plain(text) => Kept(text) case Token(sp) => KeptSpecial(skip, sp)
  }

  lemma SpecialText(tok: seq<bytes>, skip: seq<int>, sp: Special)
    requires 0 <= sp.id < |tok| && tok[sp.id] == sp.surf && sp.surf != []
    ensures |TokenText(tok, skip, sp.id)| <= |sp.surf|
    ensures TokenText(tok, skip, sp.id) == sp.surf <==> KeptSpecial(skip, sp)
  {
    UnescapeShortens(sp.surf);
  }

  lemma PlainText(text: bytes)
    ensures Returned(text) == text <==> Kept(text)
    ensures WellFormed(text) ==> |Returned(text)| <= |text|
    ensures Returned(text) == text || Differs(Returned(text), text)
  {
    KeptOrDiffers(text);
    KeptIff(text);
    if WellFormed(text) {
      EscapeFolds(text);
      WholeTextReads(Escape(text));
      FoldLength(text);
    }
  }

  /**
   * With special parsing on, a text comes back exactly when every segment of it does: any byte string
   * under a list of specials that all come back, and any well-formed text under every list.
   */
  lemma RoundTripSpecials(tok: seq<bytes>, merges: seq<bytes>, skip: seq<int>, spec: seq<Special>, bos: int, s: bytes)
    requires CleanVocabulary(tok, merges, skip) && AllWellFormed(tok) && (bos < 0 || bos in skip)
    requires FromVocab(tok, spec) && (WellFormed(s) || forall sp | sp in spec :: KeptSpecial(skip, sp))
    ensures DecodeText(tok, skip, EncodeIds(tok, merges, spec, true, bos, s)) == s
       <==> forall g | g in Segments(spec, s) :: KeptSegment(skip, g)
  {
    DecodeSpecials(tok, merges, skip, spec, bos, s);
    var gs := Segments(spec, s);
    SegmentsText(spec, s, 0, 0);
    assert s[0..] == s;
    SegmentsComeBack(tok, skip, spec, s, gs);
    if forall g | g in gs :: KeptSegment(skip, g) {
      forall i | 0 <= i < |gs| ensures KeptSegment(skip, gs[i]) { assert gs[i] in gs; }
    }
  }

  lemma SegmentsComeBack(tok: seq<bytes>, skip: seq<int>, spec: seq<Special>, s: bytes, gs: seq<Segment>)
    requires AllWellFormed(tok) && FromVocab(tok, spec) && gs == Segments(spec, s)
    requires WellFormed(s) || forall sp | sp in spec :: KeptSpecial(skip, sp)
    ensures Flatten(SegmentTexts(tok, skip, gs)) == SurfaceText(gs)
       <==> forall i | 0 <= i < |gs| :: KeptSegment(skip, gs[i])
  {
    var texts := SegmentTexts(tok, skip, gs);
    forall i | 0 <= i < |gs| ensures texts[i] == Surface(gs[i]) <==> KeptSegment(skip, gs[i]) {
      OneComesBack(tok, skip, spec, s, gs[i]);
    }
    if WellFormed(s) {
      forall sp | sp in spec ensures WellFormed(sp.surf) { assert WellFormed(tok[sp.id]); }
      WholeSegments(spec, s);
      forall i | 0 <= i < |gs| ensures |texts[i]| <= |Surface(gs[i])| {
        assert gs[i] in gs;
        OneComesBack(tok, skip, spec, s, gs[i]);
      }
      ShorterIff(gs, texts);
    } else {
      forall i | 0 <= i < |gs| ensures texts[i] == Surface(gs[i]) || Differs(texts[i], Surface(gs[i])) {
        OneComesBack(tok, skip, spec, s, gs[i]);
      }
      DifferingIff(gs, texts);
    }
  }

  lemma OneComesBack(tok: seq<bytes>, skip: seq<int>, spec: seq<Special>, s: bytes, g: Segment)
    requires FromVocab(tok, spec) && g in Segments(spec, s)
    ensures SegmentText(tok, skip, g) == Surface(g) <==> KeptSegment(skip, g)
    ensures WellFormed(Surface(g)) ==> |SegmentText(tok, skip, g)| <= |Surface(g)|
    ensures g.Token? ==> g.special in spec
    ensures g.Plain? ==> SegmentText(tok, skip, g) == Surface(g) || Differs(SegmentText(tok, skip, g), Surface(g))
  {
    TokensAreListed(spec, s, 0, 0);
    match g
    case Plain(text) => PlainText(text);
    case Token(sp) => SpecialText(tok, skip, sp);
  }

  const CUT: bytes := [0xC3, 0x20]

  lemma CutSymbols()
    ensures Escape(CUT) == [0xC3, 0xE2, 0x96, 0x81]
    ensures CutText(Escape(CUT)) == [[0xC3, 0xE2], [0x96], [0x81]]
  {
    assert CUT[1..] == [0x20] && CUT[1..][1..] == [];
    var e: bytes := [0xC3, 0xE2, 0x96, 0x81];
    assert Escape(CUT) == e;
    RunEndIs(e, false, 1, 4);
    assert e[..2] == [0xC3, 0xE2] && e[2..] == [0x96, 0x81];
    var f: bytes := [0x96, 0x81];
    assert f[..1] == [0x96] && f[1..] == [0x81];
    var g: bytes := [0x81];
    assert g[..1] == g && g[1..] == [];
    assert CutText(g) == [g] && CutText(f) == [[0x96], [0x81]];
  }

  /**
   * The smallest text that does not come back: a truncated lead byte before a space takes the
   * first byte of the escaped space into its symbol, and the space comes back as U+2581. This
   * happens under every vocabulary that lacks those broken byte sequences.
   */
  lemma TruncatedLead(tok: seq<bytes>, merges: seq<bytes>, skip: seq<int>, spec: seq<Special>, bos: int)
    requires CleanVocabulary(tok, merges, skip) && (bos < 0 || bos in skip)
    requires Lookup(tok, [0xC3, 0xE2]) < 0 && Lookup(tok, [0x96]) < 0 && Lookup(tok, [0x81]) < 0
    ensures DecodeText(tok, skip, EncodeIds(tok, merges, spec, false, bos, CUT)) == [0xC3, 0xE2, 0x96, 0x81] != CUT
    ensures !Kept(CUT)
  {
    CutUnbroken(tok);
    CutReturned();
    DecodeEncode(tok, merges, skip, spec, bos, CUT);
    KeptIff(CUT);
  }

  lemma CutUnbroken(tok: seq<bytes>)
    requires Lookup(tok, [0xC3, 0xE2]) < 0 && Lookup(tok, [0x96]) < 0 && Lookup(tok, [0x81]) < 0
    ensures Unbroken(tok, Escape(CUT))
  {
    CutSymbols();
  }

  lemma CutReturned()
    ensures Returned(CUT) == [0xC3, 0xE2, 0x96, 0x81] && |CUT| == 2
  {
    var a: bytes, b: bytes, c: bytes := [0xC3, 0xE2], [0x96], [0x81];
    CutSymbols();
    assert EachReads([a, b, c]) == [a, b, c];
    assert [a, b, c][1..] == [b, c];
    FlattenPair(b, c);
  }
}
