/**
 * Decoding what the SPM lane encoded (src/tokenizer/tokenizer.c). The decoder is the byte-level one
 * of the GPT2 lane: it leaves U+2581 and byte tokens as they are spelled and turns the codepoints of
 * the byte alphabet into single bytes.
 */
module SpmRoundTrip {
  import opened Common
  import opened Vocab
  import opened MergeSpec
  import opened Text
  import opened Utf8
  import opened Fallback
  import opened Specials
  import opened Gpt2Bytes
  import opened SpellingDecode
  import opened SpmMerge
  import opened Spm

  // ---- what a character comes back as ----

  /** The spellings of the byte tokens of a character. */
  function Names(w: bytes): bytes { if w == [] then [] else ByteName(w[0]) + Names(w[1..]) }

  function SymbolText(tok: seq<bytes>, c: bytes): bytes { if Lookup(tok, c) >= 0 then SpellingText(c) else Names(c) }

  /** A space is looked up as U+2581. */
  function CharText(tok: seq<bytes>, c: bytes): bytes { SymbolText(tok, if c == [SPACE] then BLOCK else c) }

  function FirstLen(e: bytes): (n: nat)
    requires e != []
    ensures 1 <= n <= |e|
  {
    Min(LeadLen(Spm, e[0]), |e|)
  }

  /** What an escaped text comes back as, initial symbol by initial symbol. */
  function Back(tok: seq<bytes>, e: bytes): bytes {
    if e == [] then [] else SymbolText(tok, e[..FirstLen(e)]) + Back(tok, e[FirstLen(e)..])
  }

  /** What a text comes back as. */
  function Shown(tok: seq<bytes>, s: bytes): bytes { Back(tok, Escape(s)) }

  /** A two-byte character that stands for a byte in the byte-level alphabet. */
  predicate Mapped(c: bytes) { |c| == 2 && ByteOf(CpDecode(c).0) >= 0 }

  /** A character comes back: it is a token, not a space, and not mapped to a byte. */
  predicate Unchanged(tok: seq<bytes>, c: bytes) { Lookup(tok, c) >= 0 && c != [SPACE] && !Mapped(c) }

  predicate Kept(tok: seq<bytes>, s: bytes)
    requires WellFormed(s)
  {
    s == [] || (Unchanged(tok, s[..CharLen(s)]) && Kept(tok, s[CharLen(s)..]))
  }

  lemma SpellingChar(c: bytes, rest: bytes)
    requires OneChar(c)
    ensures SpellingText(c + rest) == SpellingText(c) + SpellingText(rest)
    ensures SpellingText(c) == if Mapped(c) then [ByteOf(CpDecode(c).0)] else c
  {
    SpellingHead(c, rest);
    SpellingHead(c, []);
    assert c + [] == c;
  }

  lemma SpellingHead(c: bytes, rest: bytes)
    requires OneChar(c)
    ensures SpellingText(c + rest) == (if Mapped(c) then [ByteOf(CpDecode(c).0)] else c) + SpellingText(rest)
  {
    DecodesChar(c, rest);
    assert (c + rest)[|c|..] == rest && (c + rest)[..|c|] == c;
  }

  /** A well-formed character is decoded in one step, and only two-byte ones reach the alphabet beyond ASCII. */
  lemma DecodesChar(c: bytes, rest: bytes)
    requires OneChar(c)
    ensures CpDecode(c + rest) == (CpDecode(c).0, |c|)
    ensures |c| == 1 ==> CpDecode(c).0 == c[0] && (ByteOf(c[0]) >= 0 ==> ByteOf(c[0]) == c[0])
    ensures |c| > 2 ==> CpDecode(c).0 > MAX_CP
  {
    var w := c + rest;
    assert forall i | 0 <= i < |c| :: w[i] == c[i];
  }

  lemma CharTextForm(tok: seq<bytes>, c: bytes)
    requires OneChar(c)
    ensures Unchanged(tok, c) ==> CharText(tok, c) == c
    ensures c == [SPACE] ==> CharText(tok, c) != [] && (CharText(tok, c)[0] == 0xE2 || CharText(tok, c)[0] == 0x3C)
    ensures c != [SPACE] && Lookup(tok, c) < 0 ==> CharText(tok, c) == ByteName(c[0]) + Names(c[1..])
    ensures c != [SPACE] && Lookup(tok, c) >= 0 && Mapped(c) ==> |CharText(tok, c)| == 1
  {
    SpellingChar(c, []);
    assert OneChar(BLOCK);
    SpellingChar(BLOCK, []);
  }

  lemma BackStep(tok: seq<bytes>, w: bytes, rest: bytes)
    requires w != [] && |w| == FirstLen(w + rest)
    ensures Back(tok, w + rest) == SymbolText(tok, w) + Back(tok, rest)
  {
    assert (w + rest)[..|w|] == w && (w + rest)[|w|..] == rest;
  }

  lemma CharStep(c: bytes, rest: bytes)
    requires OneChar(c)
    ensures FirstLen(c + rest) == |c|
  {
    assert (c + rest)[0] == c[0];
  }

  /** A well-formed character is shown by itself, whatever follows. */
  lemma ShownChar(tok: seq<bytes>, c: bytes, t: bytes)
    requires OneChar(c)
    ensures Shown(tok, c + t) == CharText(tok, c) + Shown(tok, t)
  {
    EscapeConcat(c, t);
    EscapeChar(c);
    CharStep(Escape(c), Escape(t));
    BackStep(tok, Escape(c), Escape(t));
  }

  lemma {:induction false} ShownConcat(tok: seq<bytes>, a: bytes, b: bytes)
    requires WellFormed(a)
    ensures Shown(tok, a + b) == Shown(tok, a) + Shown(tok, b)
    decreases |a|
  {
    if a == [] {
      assert a + b == b;
    } else {
      var c, t := a[..CharLen(a)], a[CharLen(a)..];
      SplitChar(a);
      ShownConcat(tok, t, b);
      ShownChar(tok, c, t);
      ShownChar(tok, c, t + b);
      Assoc(c, t, b);
      Assoc(CharText(tok, c), Shown(tok, t), Shown(tok, b));
    }
  }

  lemma ShownOne(tok: seq<bytes>, c: bytes)
    requires OneChar(c)
    ensures WellFormed(c) && Shown(tok, c) == CharText(tok, c)
  {
    OneCharWellFormed(c);
    ShownChar(tok, c, []);
    assert c + [] == c;
  }

  // ---- symbols and ids ----

  predicate CharsAreTokens(tok: seq<bytes>, w: bytes)
    requires WellFormed(w)
  {
    w == [] || (Lookup(tok, w[..CharLen(w)]) >= 0 && CharsAreTokens(tok, w[CharLen(w)..]))
  }

  /**
   * What the vocabulary must satisfy, checkable when it is loaded: all byte tokens are there, and
   * every character of a well-formed entry without spaces is an entry.
   */
  predicate Closed(tok: seq<bytes>) {
    && (forall b: nat | b < 256 :: Lookup(tok, ByteName(b)) >= 0)
    && (forall id | 0 <= id < |tok| && WellFormed(tok[id]) && SPACE !in tok[id] :: CharsAreTokens(tok, tok[id]))
  }

  /** A symbol of the merge loop: well formed without spaces, and a token unless it is a single character. */
  predicate Symbol(tok: seq<bytes>, w: bytes) {
    WellFormed(w) && SPACE !in w && (OneChar(w) || Lookup(tok, w) >= 0)
  }

  lemma {:induction false} TokenShown(tok: seq<bytes>, w: bytes)
    requires WellFormed(w) && SPACE !in w && CharsAreTokens(tok, w)
    ensures SpellingText(w) == Shown(tok, w)
    decreases |w|
  {
    if w != [] {
      SplitChar(w);
      var c, t := w[..CharLen(w)], w[CharLen(w)..];
      assert c[0] == w[0] != SPACE;
      SpellingChar(c, t);
      TokenShown(tok, t);
      ShownChar(tok, c, t);
    }
  }

  /** Printable ASCII decodes as itself. */
  predicate Ascii(w: bytes) { forall i | 0 <= i < |w| :: 33 <= w[i] <= 126 }

  lemma {:induction false} AsciiText(w: bytes)
    requires Ascii(w)
    ensures SpellingText(w) == w
  {
    if w != [] {
      AsciiText(w[1..]);
      assert CpDecode(w) == (w[0] as int, 1);
    }
  }

  lemma {:induction false} ByteIdsText(tok: seq<bytes>, w: bytes)
    requires Closed(tok)
    ensures DecodeText(tok, ByteIds(tok, w)) == Names(w)
  {
    if w != [] {
      var id := Lookup(tok, ByteName(w[0]));
      AsciiText(ByteName(w[0]));
      assert IdText(tok, id) == ByteName(w[0]);
      assert ByteIds(tok, w)[1..] == ByteIds(tok, w[1..]);
      ByteIdsText(tok, w[1..]);
    }
  }

  /** What one symbol comes back as. */
  function WordText(tok: seq<bytes>, w: bytes): bytes { if WellFormed(w) then Shown(tok, w) else Names(w) }

  function EachText(tok: seq<bytes>, ws: seq<bytes>): (r: seq<bytes>)
    ensures |r| == |ws| && forall i | 0 <= i < |ws| :: r[i] == WordText(tok, ws[i])
  {
    seq(|ws|, i requires 0 <= i < |ws| => WordText(tok, ws[i]))
  }

  lemma SymbolShown(tok: seq<bytes>, w: bytes)
    requires Closed(tok) && Symbol(tok, w)
    ensures DecodeText(tok, WordIds(tok, w)) == WordText(tok, w)
  {
    var id := Lookup(tok, w);
    if id >= 0 {
      DecodeOne(tok, id);
      TokenShown(tok, w);
    } else {
      ByteIdsText(tok, w);
      ShownOne(tok, w);
      assert w[0] != SPACE;
    }
  }

  // ---- broken symbols ----

  /** No well-formed text starts with it: a whole symbol that is no character. */
  predicate DeadLead(w: bytes) { w != [] && |w| == LeadLen(Spm, w[0]) && CharLen(w) == 0 }

  /** A broken symbol is no token; only the last one may be cut short. */
  predicate Broken(tok: seq<bytes>, w: bytes, last: bool) {
    !WellFormed(w) && AllWellFormed(tok) && (last || DeadLead(w))
  }

  lemma TokenIsWhole(tok: seq<bytes>, w: bytes)
    requires AllWellFormed(tok)
    ensures Lookup(tok, w) >= 0 ==> WellFormed(w)
  {
    if Lookup(tok, w) >= 0 { assert WellFormed(tok[Lookup(tok, w)]); }
  }

  predicate Word(tok: seq<bytes>, ws: seq<bytes>, i: nat)
    requires i < |ws|
  {
    Symbol(tok, ws[i]) || Broken(tok, ws[i], i + 1 == |ws|)
  }

  predicate AllWords(tok: seq<bytes>, ws: seq<bytes>) { forall i | 0 <= i < |ws| :: Word(tok, ws, i) }

  lemma DeadStaysBroken(a: bytes, b: bytes)
    requires DeadLead(a)
    ensures !WellFormed(a + b)
  {
    assert forall i | 0 <= i < |a| :: (a + b)[i] == a[i];
  }

  /** Only whole symbols are joined: no token starts or ends with a broken one. */
  lemma JoinsSymbols(tok: seq<bytes>, scores: seq<real>, ws: seq<bytes>, k: nat)
    requires |scores| == |tok| && AllWords(tok, ws) && k + 1 < |ws| && ScoreRank(tok, scores)(ws[k], ws[k + 1]).Some?
    ensures Symbol(tok, ws[k]) && Symbol(tok, ws[k + 1]) && Symbol(tok, ws[k] + ws[k + 1])
    ensures WordText(tok, ws[k] + ws[k + 1]) == WordText(tok, ws[k]) + WordText(tok, ws[k + 1])
  {
    var a, b := ws[k], ws[k + 1];
    var id := Lookup(tok, a + b);
    assert id >= 0 && tok[id] == a + b;
    assert Word(tok, ws, k) && Word(tok, ws, k + 1);
    if !Symbol(tok, a) {
      assert WellFormed(tok[id]);
      DeadStaysBroken(a, b);
    } else if !Symbol(tok, b) {
      assert WellFormed(tok[id]);
      DropWellFormed(a, b);
    }
    WellFormedConcat(a, b);
    ShownConcat(tok, a, b);
  }

  lemma MergedWords(tok: seq<bytes>, ws: seq<bytes>, k: nat)
    requires AllWords(tok, ws) && k + 1 < |ws| && Symbol(tok, ws[k] + ws[k + 1])
    ensures AllWords(tok, MergeAt(ws, k))
  {
    var r := MergeAt(ws, k);
    forall i | 0 <= i < |r| ensures Word(tok, r, i) {
      assert i < k ==> Word(tok, ws, i);
      assert i > k ==> Word(tok, ws, i + 1);
    }
  }

  /** Merging keeps the words words and what they come back as. */
  lemma {:induction false} MergedSymbols(tok: seq<bytes>, scores: seq<real>, ws: seq<bytes>)
    requires |scores| == |tok| && AllWords(tok, ws)
    ensures AllWords(tok, Merged(ws, ScoreRank(tok, scores)))
    ensures Flatten(EachText(tok, Merged(ws, ScoreRank(tok, scores)))) == Flatten(EachText(tok, ws))
    decreases |ws|
  {
    match Best(ws, ScoreRank(tok, scores))
    case None =>
    case Some(k) =>
      assert Beats(ws, ScoreRank(tok, scores), k, k);
      JoinsSymbols(tok, scores, ws, k);
      MergedWords(tok, ws, k);
      JoinedText(tok, ws, k);
      MergedSymbols(tok, scores, MergeAt(ws, k));
  }

  lemma JoinedText(tok: seq<bytes>, ws: seq<bytes>, k: nat)
    requires k + 1 < |ws|
    requires WordText(tok, ws[k] + ws[k + 1]) == WordText(tok, ws[k]) + WordText(tok, ws[k + 1])
    ensures Flatten(EachText(tok, MergeAt(ws, k))) == Flatten(EachText(tok, ws))
  {
    assert EachText(tok, MergeAt(ws, k)) == MergeAt(EachText(tok, ws), k);
    MergeAtText(EachText(tok, ws), k);
  }

  lemma WordShown(tok: seq<bytes>, ws: seq<bytes>, i: nat)
    requires Closed(tok) && i < |ws| && Word(tok, ws, i)
    ensures DecodeText(tok, WordIds(tok, ws[i])) == WordText(tok, ws[i])
  {
    var w := ws[i];
    if Symbol(tok, w) {
      SymbolShown(tok, w);
    } else {
      TokenIsWhole(tok, w);
      ByteIdsText(tok, w);
    }
  }

  lemma {:induction false} WordsShown(tok: seq<bytes>, ws: seq<bytes>)
    requires Closed(tok) && AllWords(tok, ws)
    ensures DecodeText(tok, WordsIds(tok, ws)) == Flatten(EachText(tok, ws))
  {
    if ws != [] {
      WordShown(tok, ws, 0);
      forall i | 0 <= i < |ws| - 1 ensures Word(tok, ws[1..], i) { assert Word(tok, ws, i + 1); }
      WordsShown(tok, ws[1..]);
      DecodeConcat(tok, WordIds(tok, ws[0]), WordsIds(tok, ws[1..]));
      assert EachText(tok, ws)[1..] == EachText(tok, ws[1..]);
    }
  }

  /** What the round trip asks of a text: to be well formed, or to meet no broken token. */
  predicate Fit(tok: seq<bytes>, s: bytes) { WellFormed(s) || AllWellFormed(tok) }

  /** A first symbol is a character or broken. */
  lemma FirstSymbol(tok: seq<bytes>, e: bytes)
    requires e != [] && SPACE !in e && Fit(tok, e)
    ensures var w, last := e[..FirstLen(e)], FirstLen(e) == |e|;
            (OneChar(w) && Symbol(tok, w)) || Broken(tok, w, last)
    ensures Fit(tok, e[FirstLen(e)..]) && WordText(tok, e[..FirstLen(e)]) == SymbolText(tok, e[..FirstLen(e)])
  {
    var w := e[..FirstLen(e)];
    assert w[0] == e[0] != SPACE;
    if CharLen(w) > 0 {
      assert CharLen(w) == |w| == CharLen(e);
      ShownOne(tok, w);
    } else {
      assert CharLen(e) == 0 && !WellFormed(w);
      TokenIsWhole(tok, w);
    }
  }

  /** The initial symbols of a text without spaces are words. */
  lemma {:induction false} FirstWords(tok: seq<bytes>, e: bytes)
    requires SPACE !in e && Fit(tok, e)
    ensures AllWords(tok, Chars(e, Spm)) && Flatten(EachText(tok, Chars(e, Spm))) == Back(tok, e)
    decreases |e|
  {
    if e != [] {
      var n := FirstLen(e);
      FirstSymbol(tok, e);
      FirstWords(tok, e[n..]);
      var ws := Chars(e, Spm);
      assert ws[1..] == Chars(e[n..], Spm);
      assert EachText(tok, ws)[1..] == EachText(tok, ws[1..]);
      forall i | 0 <= i < |ws| ensures Word(tok, ws, i) {
        if i > 0 { assert Word(tok, ws[1..], i - 1); } else { assert n < |e| ==> ws[1..] != []; }
      }
    }
  }

  lemma {:induction false} EscapeLeavesNoSpace(s: bytes)
    ensures SPACE !in Escape(s)
  {
    if s != [] { EscapeLeavesNoSpace(s[1..]); }
  }

  lemma {:induction false} EscapeFits(tok: seq<bytes>, s: bytes)
    requires Fit(tok, s)
    ensures Fit(tok, Escape(s))
    decreases |s|
  {
    if s != [] && WellFormed(s) {
      var c, t := s[..CharLen(s)], s[CharLen(s)..];
      SplitChar(s);
      EscapeFits(tok, t);
      EscapeConcat(c, t);
      EscapeChar(c);
      if WellFormed(Escape(t)) {
        OneCharWellFormed(Escape(c));
        WellFormedConcat(Escape(c), Escape(t));
      }
    }
  }

  /** What encoding without special parsing must produce. */
  function EncodeIds(tok: seq<bytes>, scores: seq<real>, bos: int, s: bytes): seq<int>
    requires |scores| == |tok|
  {
    (if bos >= 0 then [bos] else []) + SegmentsIds(tok, scores, Segments([], s))
  }

  lemma PlainIds(tok: seq<bytes>, scores: seq<real>, s: bytes)
    requires |scores| == |tok|
    ensures SegmentsIds(tok, scores, Segments([], s)) == FragmentIds(tok, scores, s)
  {
    NoSpecials(s, 0, 0);
    assert s[0..] == s;
    if s != [] {
      var one := [Plain(s)];
      assert one[1..] == [];
    } else {
      MergedDone([], ScoreRank(tok, scores));
    }
  }

  function BeginText(tok: seq<bytes>, bos: int): bytes { if bos >= 0 then IdText(tok, bos) else [] }

  /** What comes back: the begin token's spelling, then each initial symbol by itself. */
  lemma DecodeEncode(tok: seq<bytes>, scores: seq<real>, bos: int, s: bytes)
    requires |scores| == |tok| && Closed(tok) && Fit(tok, s)
    ensures DecodeText(tok, EncodeIds(tok, scores, bos, s)) == BeginText(tok, bos) + Shown(tok, s)
  {
    PlainIds(tok, scores, s);
    FragmentShown(tok, scores, s);
    DecodeConcat(tok, if bos >= 0 then [bos] else [], FragmentIds(tok, scores, s));
    if bos >= 0 { DecodeOne(tok, bos); }
  }

  lemma FragmentShown(tok: seq<bytes>, scores: seq<real>, s: bytes)
    requires |scores| == |tok| && Closed(tok) && Fit(tok, s)
    ensures DecodeText(tok, FragmentIds(tok, scores, s)) == Shown(tok, s)
  {
    var e := Escape(s);
    EscapeLeavesNoSpace(s);
    EscapeFits(tok, s);
    FirstWords(tok, e);
    MergedSymbols(tok, scores, Chars(e, Spm));
    WordsShown(tok, Merged(Chars(e, Spm), ScoreRank(tok, scores)));
  }

  // ---- with specials ----

  /** What one segment comes back as: a special by the spelling of its token. */
  function SegmentText(tok: seq<bytes>, g: Segment): bytes {
    match g case Plain(text) => Shown(tok, text) case Token(sp) => IdText(tok, sp.id)
  }

  function SegmentsShown(tok: seq<bytes>, gs: seq<Segment>): bytes {
    if gs == [] then [] else SegmentText(tok, gs[0]) + SegmentsShown(tok, gs[1..])
  }

  lemma {:induction false} SegmentsDecode(tok: seq<bytes>, scores: seq<real>, gs: seq<Segment>)
    requires |scores| == |tok| && Closed(tok) && forall g | g in gs && g.Plain? :: Fit(tok, g.text)
    ensures DecodeText(tok, SegmentsIds(tok, scores, gs)) == SegmentsShown(tok, gs)
  {
    if gs != [] {
      assert gs[0] in gs;
      match gs[0] {
        case Plain(text) => FragmentShown(tok, scores, text);
        case Token(sp) => DecodeOne(tok, sp.id);
      }
      forall g | g in gs[1..] ensures g in gs {}
      SegmentsDecode(tok, scores, gs[1..]);
      DecodeConcat(tok, SegmentIds(tok, scores, gs[0]), SegmentsIds(tok, scores, gs[1..]));
    }
  }

  /** What comes back for any byte string encoded with special parsing on or off. */
  lemma DecodeSpecials(tok: seq<bytes>, scores: seq<real>, spec: seq<Special>, bos: int, s: bytes)
    requires |scores| == |tok| && Closed(tok) && AllWellFormed(tok)
    ensures var ids := (if bos >= 0 then [bos] else []) + SegmentsIds(tok, scores, Segments(spec, s));
            DecodeText(tok, ids) == BeginText(tok, bos) + SegmentsShown(tok, Segments(spec, s))
  {
    SegmentsDecode(tok, scores, Segments(spec, s));
    DecodeConcat(tok, if bos >= 0 then [bos] else [], SegmentsIds(tok, scores, Segments(spec, s)));
    if bos >= 0 { DecodeOne(tok, bos); }
  }

  // ---- which texts come back ----

  /** Printable text in front of what a text is shown as never makes the text itself. */
  lemma {:induction false} NeverCatchesUp(tok: seq<bytes>, front: bytes, t: bytes)
    requires front != [] && Ascii(front)
    ensures t != front + Shown(tok, t)
    decreases |t|
  {
    if t == front + Shown(tok, t) {
      var u := Shown(tok, t);
      AsciiIsText(front);
      ShownConcat(tok, front, u);
      AsciiShown(tok, front);
      AfterFront(front, u, Shown(tok, front), Shown(tok, u));
      NeverCatchesUp(tok, Shown(tok, front), u);
    }
  }

  lemma AfterFront(front: bytes, u: bytes, a: bytes, b: bytes)
    requires u == a + b
    ensures |u| < |front + u| || front == []
  {}

  lemma {:induction false} AsciiIsText(w: bytes)
    requires Ascii(w)
    ensures WellFormed(w)
  {
    if w != [] { AsciiIsText(w[1..]); }
  }

  lemma {:induction false} NamesAscii(w: bytes)
    ensures Ascii(Names(w))
  {
    if w != [] { NamesAscii(w[1..]); }
  }

  lemma AsciiCharText(tok: seq<bytes>, c: bytes)
    requires Ascii(c) && |c| == 1
    ensures Ascii(CharText(tok, c)) && CharText(tok, c) != []
  {
    CharTextForm(tok, c);
    NamesAscii(c);
  }

  lemma AsciiHead(w: bytes)
    requires Ascii(w) && w != []
    ensures CharLen(w) == 1 && OneChar(w[..1]) && Ascii(w[..1]) && Ascii(w[1..]) && w == w[..1] + w[1..]
  {}

  lemma AsciiConcat(a: bytes, b: bytes)
    requires Ascii(a) && Ascii(b)
    ensures Ascii(a + b)
  {}

  lemma {:induction false} AsciiShown(tok: seq<bytes>, w: bytes)
    requires Ascii(w) && WellFormed(w)
    ensures Ascii(Shown(tok, w)) && (w != [] ==> Shown(tok, w) != [])
  {
    if w != [] {
      AsciiHead(w);
      AsciiCharText(tok, w[..1]);
      AsciiShown(tok, w[1..]);
      ShownChar(tok, w[..1], w[1..]);
      AsciiConcat(CharText(tok, w[..1]), Shown(tok, w[1..]));
    }
  }

  /** How many mapped characters that are tokens start the text. */
  function MappedRun(tok: seq<bytes>, s: bytes): nat {
    if CharLen(s) == 0 || !MappedToken(tok, s[..CharLen(s)]) then 0 else 1 + MappedRun(tok, s[CharLen(s)..])
  }

  predicate MappedToken(tok: seq<bytes>, c: bytes) { Lookup(tok, c) >= 0 && Mapped(c) }

  lemma RunHead(tok: seq<bytes>, s: bytes)
    requires MappedRun(tok, s) > 0
    ensures |s| >= 2 && MappedRun(tok, s) == MappedRun(tok, s[2..]) + 1
    ensures OneChar(s[..2]) && Mapped(s[..2]) && |CharText(tok, s[..2])| == 1
    ensures Shown(tok, s) == CharText(tok, s[..2]) + Shown(tok, s[2..])
  {
    SplitChar(s);
    CharTextForm(tok, s[..2]);
    ShownChar(tok, s[..2], s[2..]);
  }

  /** A run of k mapped tokens takes 2k bytes of text and shows k. */
  lemma {:induction false} RunShown(tok: seq<bytes>, s: bytes)
    ensures var k := MappedRun(tok, s);
            && 2 * k <= |s| && MappedRun(tok, s[2 * k..]) == 0
            && |Shown(tok, s)| >= k && Shown(tok, s)[k..] == Shown(tok, s[2 * k..])
    decreases |s|
  {
    var k := MappedRun(tok, s);
    if k == 0 {
      assert s[0..] == s && Shown(tok, s)[0..] == Shown(tok, s);
    } else {
      RunHead(tok, s);
      RunShown(tok, s[2..]);
      TailAfterOne(CharText(tok, s[..2]), Shown(tok, s[2..]), k);
      DropTwo(s, k);
    }
  }

  lemma DropTwo(s: bytes, k: nat)
    requires 0 < k && 2 * k <= |s|
    ensures s[2..][2 * (k - 1)..] == s[2 * k..]
  {}

  predicate MappedAt(s: bytes, j: nat) {
    2 * j + 2 <= |s| && OneChar(s[2 * j..2 * j + 2]) && Mapped(s[2 * j..2 * j + 2])
  }

  lemma {:induction false} RunIsMapped(tok: seq<bytes>, s: bytes, j: nat)
    requires j < MappedRun(tok, s)
    ensures MappedAt(s, j)
    decreases |s|
  {
    RunHead(tok, s);
    if j == 0 {
      assert s[0..2] == s[..2];
    } else {
      RunIsMapped(tok, s[2..], j - 1);
      PairShift(s, j);
    }
  }

  lemma PairShift(s: bytes, j: nat)
    requires 0 < j && 2 * j + 2 <= |s|
    ensures s[2..][2 * (j - 1)..2 * (j - 1) + 2] == s[2 * j..2 * j + 2]
  {}

  lemma TailAfterOne(x: bytes, y: bytes, k: nat)
    requires |x| == 1 && 0 < k <= |y| + 1
    ensures (x + y)[k..] == y[k - 1..]
  {}

  /** The byte of a run of mapped characters at a place is a tail or the first byte of one of them. */
  lemma RunByte(s: bytes, k: nat)
    requires 0 < k && 2 * k <= |s|
    requires forall j: nat | j < k :: MappedAt(s, j)
    ensures 0x80 <= s[k] <= 0xC5
    ensures s[k] > 0xBF ==> k + 2 <= |s| && OneChar(s[k..k + 2]) && Mapped(s[k..k + 2])
  {
    var j := k / 2;
    var m := s[2 * j..2 * j + 2];
    assert MappedAt(s, j);
    MappedLead(m);
    if k % 2 == 0 { assert k == 2 * j; } else { assert k == 2 * j + 1 && s[k] == m[1]; }
  }

  lemma MappedLead(m: bytes)
    requires OneChar(m) && Mapped(m)
    ensures 0xC2 <= m[0] <= 0xC5 && 0x80 <= m[1] <= 0xBF
  {}

  /** The character after the run shows something that the run cannot hold at that place. */
  lemma RunDiffers(tok: seq<bytes>, s: bytes, k: nat, c: bytes, shown: bytes)
    requires 0 < k && 2 * k + |c| <= |s| && OneChar(c) && !MappedToken(tok, c)
    requires forall j: nat | j < k :: MappedAt(s, j)
    requires |shown| >= k && CharText(tok, c) <= shown[k..]
    ensures shown != s
  {
    RunByte(s, k);
    CharTextForm(tok, c);
    assert shown[k] == shown[k..][0] == CharText(tok, c)[0];
    if Unchanged(tok, c) && s[k] > 0xBF { LeadsDiffer(c, s[k..k + 2], shown, s, k); }
  }

  /** Different characters at one place of two texts tell the texts apart. */
  lemma LeadsDiffer(c: bytes, m: bytes, shown: bytes, s: bytes, k: nat)
    requires OneChar(c) && OneChar(m) && |m| == 2 && c != m
    requires k <= |shown| && c <= shown[k..] && k + 2 <= |s| && m == s[k..k + 2]
    ensures shown != s
  {
    assert shown[k] == shown[k..][0] == c[0];
    if c[0] == m[0] { assert shown[k + 1] == shown[k..][1] == c[1]; }
  }

  lemma PrefixChar(e: bytes, n: nat)
    requires 0 < n <= |e|
    ensures WellFormed(e[..n]) ==> CharLen(e) > 0
  {
    if WellFormed(e[..n]) { CharLenPrefix(e[..n], e[n..]); assert e == e[..n] + e[n..]; }
  }

  /** Where no character starts, the byte of 0x80 or more comes back as its name, which starts with 0x3C. */
  lemma BrokenShown(tok: seq<bytes>, b: bytes)
    requires b != [] && CharLen(b) == 0 && AllWellFormed(tok)
    ensures b[0] >= 0x80 && Shown(tok, b) != [] && Shown(tok, b)[0] == 0x3C
  {
    var e := Escape(b);
    EscapedLead(b);
    var w := e[..FirstLen(e)];
    PrefixChar(e, |w|);
    TokenIsWhole(tok, w);
    assert w[0] == b[0] && Names(w) == ByteName(b[0]) + Names(w[1..]);
  }

  /** The text up to the first space, and the rest. */
  lemma BeforeSpace(b: bytes) returns (a: bytes, rest: bytes)
    ensures b == a + rest && (rest == [] || rest[0] == SPACE) && forall i | 0 <= i < |a| :: a[i] != SPACE
  {
    var n: nat := 0;
    while n < |b| && b[n] != SPACE
      invariant n <= |b| && forall i | 0 <= i < n :: b[i] != SPACE
    {
      n := n + 1;
    }
    a, rest := b[..n], b[n..];
  }

  lemma CharInside(a: bytes, x: bytes)
    requires 0 < CharLen(a + x) <= |a|
    ensures CharLen(a) > 0
  {
    var m := CharLen(a + x);
    FirstChar(a + x);
    assert (a + x)[..m] == a[..m];
    CharLenPrefix(a[..m], a[m..]);
    assert a == a[..m] + a[m..];
  }

  /** Escaping mends no broken character: what it writes for a space starts with no tail byte. */
  lemma EscapedLead(b: bytes)
    requires b != [] && CharLen(b) == 0
    ensures Escape(b) != [] && Escape(b)[0] == b[0] && CharLen(Escape(b)) == 0
  {
    var a, rest := BeforeSpace(b);
    EscapeConcat(a, rest);
    EscapeNoSpace(a);
    var e, m := Escape(b), CharLen(Escape(b));
    assert a != [] by { assert rest == b ==> CharLen(b) == 1; }
    if m > 0 {
      if m <= |a| {
        CharInside(a, Escape(rest));
        CharLenPrefix(a, rest);
      } else {
        assert e[|a|] == 0xE2;
        FirstChar(e);
        CharTails(e[..m], |a|);
      }
    }
  }

  /**
   * A text that starts with a mapped token does not come back: what is shown falls behind and never
   * fits again.
   */
  lemma MappedNeverFits(tok: seq<bytes>, s: bytes)
    requires Fit(tok, s) && MappedRun(tok, s) > 0
    ensures Shown(tok, s) != s
  {
    var k := MappedRun(tok, s);
    RunShown(tok, s);
    forall j: nat | j < k ensures MappedAt(s, j) { RunIsMapped(tok, s, j); }
    var rest := s[2 * k..];
    if rest == [] {
      assert Shown(tok, s)[k..] == [];
      assert |Shown(tok, s)| == k;
    } else if CharLen(rest) == 0 {
      RunBreaks(tok, s);
      BrokenShown(tok, rest);
      RunByte(s, k);
      assert Shown(tok, s)[k] == Shown(tok, s)[k..][0];
    } else {
      SplitChar(rest);
      ShownChar(tok, rest[..CharLen(rest)], rest[CharLen(rest)..]);
      RunDiffers(tok, s, k, rest[..CharLen(rest)], Shown(tok, s));
    }
  }

  /** A broken text after the run makes the whole text broken. */
  lemma {:induction false} RunBreaks(tok: seq<bytes>, s: bytes)
    requires 2 * MappedRun(tok, s) < |s| && CharLen(s[2 * MappedRun(tok, s)..]) == 0
    ensures !WellFormed(s)
    decreases |s|
  {
    var k := MappedRun(tok, s);
    if k > 0 {
      RunHead(tok, s);
      DropTwo(s, k);
      RunBreaks(tok, s[2..]);
    } else {
      assert s[0..] == s;
    }
  }

  lemma SamePrefix(c: bytes, x: bytes, t: bytes)
    ensures c + x == c + t <==> x == t
  {
    assert (c + x)[|c|..] == x && (c + t)[|c|..] == t;
  }

  /** A character without a token comes back as the names of its bytes, which never spell the text. */
  lemma NamesNeverFit(tok: seq<bytes>, c: bytes, t: bytes)
    requires OneChar(c) && c != [SPACE] && Lookup(tok, c) < 0
    ensures CharText(tok, c) + Shown(tok, t) != c + t
  {
    CharTextForm(tok, c);
    var d, x := CharText(tok, c), Shown(tok, t);
    assert (d + x)[0] == 0x3C && (c + t)[0] == c[0];
    if c[0] == 0x3C {
      var front := ByteName(0x3C)[1..];
      assert c == [0x3C] && d == [0x3C] + front;
      Assoc([0x3C], front, x);
      SamePrefix([0x3C], front + x, t);
      NeverCatchesUp(tok, front, t);
    }
  }

  /** The texts that come back: well formed, and every character unchanged. */
  predicate Returns(tok: seq<bytes>, s: bytes) { WellFormed(s) && Kept(tok, s) }

  /** A text is shown as itself exactly when it is well formed and kept. */
  lemma {:induction false} ShownIffKept(tok: seq<bytes>, s: bytes)
    requires Fit(tok, s)
    ensures Shown(tok, s) == s <==> Returns(tok, s)
    decreases |s|
  {
    if s == [] {
    } else if CharLen(s) == 0 {
      BrokenShown(tok, s);
    } else {
      var c, t := s[..CharLen(s)], s[CharLen(s)..];
      SplitChar(s);
      CharTextForm(tok, c);
      ShownChar(tok, c, t);
      if Unchanged(tok, c) {
        ShownIffKept(tok, t);
        SamePrefix(c, Shown(tok, t), t);
      } else if c == [SPACE] {
        assert Shown(tok, s)[0] == CharText(tok, c)[0];
      } else if Lookup(tok, c) < 0 {
        NamesNeverFit(tok, c, t);
      } else {
        MappedNeverFits(tok, s);
      }
    }
  }

  /** Without a begin token a text comes back exactly when it is well formed and kept. */
  lemma RoundTrip(tok: seq<bytes>, scores: seq<real>, bos: int, s: bytes)
    requires |scores| == |tok| && Closed(tok) && Fit(tok, s) && bos < 0
    ensures DecodeText(tok, EncodeIds(tok, scores, bos, s)) == s <==> Returns(tok, s)
  {
    DecodeEncode(tok, scores, bos, s);
    ShownIffKept(tok, s);
    assert [] + Shown(tok, s) == Shown(tok, s);
  }

  /** With a begin token that is spelled in printable ASCII no text comes back. */
  lemma BeginTokenStays(tok: seq<bytes>, scores: seq<real>, bos: int, s: bytes)
    requires |scores| == |tok| && Closed(tok) && Fit(tok, s)
    requires 0 <= bos < |tok| && tok[bos] != [] && Ascii(tok[bos])
    ensures DecodeText(tok, EncodeIds(tok, scores, bos, s)) != s
  {
    DecodeEncode(tok, scores, bos, s);
    AsciiText(tok[bos]);
    NeverCatchesUp(tok, tok[bos], s);
  }

  lemma Decoded(tok: seq<bytes>, scores: seq<real>, c: bytes)
    requires |scores| == |tok| && Closed(tok) && OneChar(c)
    ensures DecodeText(tok, EncodeIds(tok, scores, -1, c)) == CharText(tok, c)
  {
    ShownOne(tok, c);
    DecodeEncode(tok, scores, -1, c);
    assert [] + Shown(tok, c) == Shown(tok, c);
  }

  lemma SpaceDecoded(tok: seq<bytes>, scores: seq<real>)
    requires |scores| == |tok| && Closed(tok) && Lookup(tok, BLOCK) >= 0
    ensures DecodeText(tok, EncodeIds(tok, scores, -1, [SPACE])) == BLOCK
  {
    Decoded(tok, scores, [SPACE]);
    assert OneChar(BLOCK);
    SpellingChar(BLOCK, []);
  }

  lemma AccentText(c: bytes)
    requires |c| == 2 && c[0] == 0xC3 && c[1] == 0xA9
    ensures OneChar(c) && SpellingText(c) == [0xE9]
  {
    SpellingChar(c, []);
  }

  lemma AccentDecoded(tok: seq<bytes>, scores: seq<real>)
    requires |scores| == |tok| && Closed(tok) && Lookup(tok, [0xC3, 0xA9]) >= 0
    ensures DecodeText(tok, EncodeIds(tok, scores, -1, [0xC3, 0xA9])) == [0xE9]
  {
    AccentText([0xC3, 0xA9]);
    Decoded(tok, scores, [0xC3, 0xA9]);
  }

  lemma LetterDecoded(tok: seq<bytes>, scores: seq<real>, b: byte)
    requires |scores| == |tok| && Closed(tok) && Lookup(tok, [b]) < 0 && 33 <= b <= 126
    ensures DecodeText(tok, EncodeIds(tok, scores, -1, [b])) == ByteName(b)
  {
    Decoded(tok, scores, [b]);
    NamesOne(b);
  }

  lemma NamesOne(b: byte)
    ensures Names([b]) == ByteName(b)
  {
    var one: bytes := [b];
    assert one[1..] == [] && Names([]) == [];
    assert ByteName(b) + [] == ByteName(b);
  }

  /**
   * The smallest failures, decoded from their encodings: a space, U+00E9, and a printable byte that is
   * no token.
   */
  lemma Failures(tok: seq<bytes>, scores: seq<real>, b: byte)
    requires |scores| == |tok| && Closed(tok)
    requires Lookup(tok, BLOCK) >= 0 && Lookup(tok, [0xC3, 0xA9]) >= 0 && Lookup(tok, [b]) < 0 && 33 <= b <= 126
    ensures DecodeText(tok, EncodeIds(tok, scores, -1, [SPACE])) == BLOCK
    ensures DecodeText(tok, EncodeIds(tok, scores, -1, [0xC3, 0xA9])) == [0xE9]
    ensures DecodeText(tok, EncodeIds(tok, scores, -1, [b])) == ByteName(b)
  {
    SpaceDecoded(tok, scores);
    AccentDecoded(tok, scores);
    LetterDecoded(tok, scores, b);
  }

  const CUT: bytes := [0xC3, SPACE]
  const CUT_ESCAPED: bytes := [0xC3, 0xE2, 0x96, 0x81]

  /**
   * The smallest text outside ASCII that is broken within: a lead byte cut off by a space. It takes the
   * first byte of the escaped space into its symbol, and all four bytes come back as names.
   */
  lemma BrokenExample(tok: seq<bytes>, scores: seq<real>)
    requires |scores| == |tok| && Closed(tok) && AllWellFormed(tok)
    ensures DecodeText(tok, EncodeIds(tok, scores, -1, CUT)) == Names(CUT_ESCAPED)
  {
    DecodeEncode(tok, scores, -1, CUT);
    CutEscaped();
    CutBack(tok);
    assert [] + Shown(tok, CUT) == Shown(tok, CUT);
  }

  lemma CutEscaped()
    ensures Escape(CUT) == CUT_ESCAPED
  {
    assert CUT[1..] == [SPACE] && CUT[1..][1..] == [];
  }

  lemma CutBack(tok: seq<bytes>)
    requires AllWellFormed(tok)
    ensures Back(tok, CUT_ESCAPED) == Names(CUT_ESCAPED)
  {
    var a: bytes, b: bytes, c: bytes := [0xC3, 0xE2], [0x96], [0x81];
    assert CUT_ESCAPED == a + (b + c) && c + [] == c;
    BrokenBack(tok, a, b + c);
    BrokenBack(tok, b, c);
    BrokenBack(tok, c, []);
    assert Names(c) + [] == Names(c);
    NamesConcat(a, b + c);
    NamesConcat(b, c);
  }

  lemma BrokenBack(tok: seq<bytes>, w: bytes, rest: bytes)
    requires w != [] && |w| == FirstLen(w + rest) && !WellFormed(w) && AllWellFormed(tok)
    ensures Back(tok, w + rest) == Names(w) + Back(tok, rest)
  {
    BackStep(tok, w, rest);
    TokenIsWhole(tok, w);
  }

  lemma {:induction false} NamesConcat(a: bytes, b: bytes)
    ensures Names(a + b) == Names(a) + Names(b)
  {
    if a == [] {
      assert a + b == b;
    } else {
      assert (a + b)[0] == a[0] && (a + b)[1..] == a[1..] + b;
      NamesConcat(a[1..], b);
    }
  }
}
