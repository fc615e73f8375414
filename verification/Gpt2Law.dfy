/**
 * What the GPT2 lane promises of its ids (src/tokenizer/tokenizer.c), as a relation between text, lists
 * and ids: codepoints, pieces, byte symbols, and joins by the first merge line that applies.
 */
module Gpt2Law {
  import opened Common
  import opened Vocab
  import opened MergeLaw
  import opened MergeChain
  import opened Gpt2Bytes
  import opened Gpt2
  import opened Specials
  import opened EncodeLaw
  import Lane = Gpt2RoundTrip
  import PreTokenizer

  // ---- UTF-8 ----

  /** The UTF-8 encoding of a codepoint, section 3 of RFC 3629. */
  function Utf8Of(cp: nat): bytes
    requires cp <= 0x10FFFF
  {
    if cp < 0x80 then [cp]
    else if cp < 0x800 then [0xC0 + cp / 64, Tail(cp)]
    else if cp < 0x10000 then [0xE0 + cp / 64 / 64, Tail(cp / 64), Tail(cp)]
    else [0xF0 + cp / 64 / 64 / 64, Tail(cp / 64 / 64), Tail(cp / 64), Tail(cp)]
  }

  /** A tail byte with the last six bits of a number. */
  function Tail(n: nat): byte { 0x80 + n % 64 }

  lemma TailBits(n: nat)
    ensures Low6(Tail(n)) == n % 64 && n == n / 64 * 64 + n % 64
  {}

  lemma Lead3(n: nat)
    requires n < 16
    ensures (0xE0 + n) % 16 == n
  {}

  lemma Lead4(n: nat)
    requires n < 8
    ensures (0xF0 + n) % 8 == n
  {}

  lemma Decodes2(cp: nat, w: bytes)
    requires 0x80 <= cp < 0x800 && |w| >= 2 && w[0] == 0xC0 + cp / 64 && w[1] == Tail(cp)
    ensures CpDecode(w) == (cp, 2)
  {
    TailBits(cp);
  }

  lemma Decodes3(cp: nat, w: bytes)
    requires 0x800 <= cp < 0x10000 && |w| >= 3
    requires w[0] == 0xE0 + cp / 64 / 64 && w[1] == Tail(cp / 64) && w[2] == Tail(cp)
    ensures CpDecode(w) == (cp, 3)
  {
    TailBits(cp);
    TailBits(cp / 64);
    Lead3(cp / 64 / 64);
  }

  lemma Decodes4(cp: nat, w: bytes)
    requires 0x10000 <= cp <= 0x10FFFF && |w| >= 4
    requires w[0] == 0xF0 + cp / 64 / 64 / 64 && w[1] == Tail(cp / 64 / 64)
    requires w[2] == Tail(cp / 64) && w[3] == Tail(cp)
    ensures CpDecode(w) == (cp, 4)
  {
    TailBits(cp);
    TailBits(cp / 64);
    TailBits(cp / 64 / 64);
    Lead4(cp / 64 / 64 / 64);
  }

  /** Every encoded codepoint is read back, whatever follows. */
  lemma DecodesUtf8(cp: nat, rest: bytes)
    requires cp <= 0x10FFFF
    ensures CpDecode(Utf8Of(cp) + rest) == (cp, |Utf8Of(cp)|)
  {
    var w := Utf8Of(cp) + rest;
    if 0x80 <= cp < 0x800 {
      Decodes2(cp, w);
    } else if 0x800 <= cp < 0x10000 {
      Decodes3(cp, w);
    } else if cp >= 0x10000 {
      Decodes4(cp, w);
    }
  }

  /** Bytes that start no character, and leads without enough bytes after them, stand alone. */
  lemma StrayByte(s: bytes)
    requires s != []
    requires 0x80 <= s[0] < 0xC0 || s[0] >= 0xF8 || |s| < (if s[0] < 0xE0 then 2 else if s[0] < 0xF0 then 3 else 4)
    ensures CpDecode(s) == (s[0], 1)
  {}

  // ---- the byte alphabet ----

  /** The bytes shown as themselves. */
  predicate ShownByte(b: int) { 33 <= b < 127 || 161 <= b < 173 || 174 <= b < 256 }

  /** How many bytes below b are not. */
  function HiddenBelow(b: nat): nat {
    if b == 0 then 0 else HiddenBelow(b - 1) + (if ShownByte(b - 1) then 0 else 1)
  }

  /** The symbol of a byte: a shown byte as itself, the others from U+0100 on, in order. */
  function SymbolOf(b: byte): bytes {
    if ShownByte(b) then Utf8Of(b) else if HiddenBelow(b) <= 67 then Utf8Of(256 + HiddenBelow(b)) else []
  }

  lemma {:induction false} HiddenIs(b: nat)
    requires b <= 256
    ensures HiddenBelow(b) == Unprintable(b)
  {
    if b > 0 { HiddenIs(b - 1); }
  }

  /** The byte alphabet of the lane is this one. */
  lemma AlphabetIs(b: byte)
    ensures Encoded(b) == SymbolOf(b)
  {
    HiddenIs(b);
  }

  // ---- one piece ----

  function SymbolsOf(piece: bytes): seq<bytes> {
    seq(|piece|, i requires 0 <= i < |piece| => SymbolOf(piece[i]))
  }

  /** The words of a piece: its byte symbols, joined line by line until no line joins any two. */
  ghost predicate IsPieceWords(lines: seq<bytes>, piece: bytes, ws: seq<bytes>) {
    exists path :: LineChain(KeyLine, lines, path) && path[0] == SymbolsOf(piece) && path[|path| - 1] == ws
  }

  lemma PieceKeepsLaw(lines: seq<bytes>, piece: bytes)
    ensures IsPieceWords(lines, piece, PieceWords(lines, piece))
  {
    KeyRanksByLine(lines);
    var path := MergedByLine(KeyLine, lines, KeyRank(lines), ByteSymbols(piece));
    forall i | 0 <= i < |piece| ensures ByteSymbols(piece)[i] == SymbolOf(piece[i]) { AlphabetIs(piece[i]); }
    assert ByteSymbols(piece) == SymbolsOf(piece);
  }

  /** A piece has one list of words. */
  lemma OnePieceWords(lines: seq<bytes>, piece: bytes, ws: seq<bytes>, ws': seq<bytes>)
    requires IsPieceWords(lines, piece, ws) && IsPieceWords(lines, piece, ws')
    ensures ws == ws'
  {
    var p :| LineChain(KeyLine, lines, p) && p[0] == SymbolsOf(piece) && p[|p| - 1] == ws;
    var q :| LineChain(KeyLine, lines, q) && q[0] == SymbolsOf(piece) && q[|q| - 1] == ws';
    LineChainEnds(KeyLine, lines, p, q);
  }

  // ---- a whole text ----

  /** The codepoints of a text with the places where they start, and its length as the last place. */
  predicate ReadsAs(s: bytes, cps: seq<int>, at: seq<nat>) {
    && |at| == |cps| + 1 && at[0] == 0 && at[|cps|] == |s|
    && forall i | 0 <= i < |cps| :: ReadsAt(s, cps[i], at[i], at[i + 1])
  }

  predicate ReadsAt(s: bytes, cp: int, a: nat, b: nat) { a < |s| && b <= |s| && CpDecode(s[a..]) == (cp, b - a) }

  /** The text from codepoint i on cut into pieces, each piece joined to its words. */
  ghost predicate IsTextWords(u: PreTokenizer.Unicode, lines: seq<bytes>, s: bytes, cps: seq<int>, at: seq<nat>, i: nat,
                              wss: seq<seq<bytes>>)
    decreases |wss|
  {
    if wss == [] then i == |cps| else
      exists e: nat :: NextWords(u, lines, s, cps, at, i, e, wss[0]) && IsTextWords(u, lines, s, cps, at, e, wss[1..])
  }

  ghost predicate NextWords(u: PreTokenizer.Unicode, lines: seq<bytes>, s: bytes, cps: seq<int>, at: seq<nat>, i: nat,
                            e: nat, ws: seq<bytes>)
  {
    && i < e <= |cps| < |at| && PreTokenizer.IsPiece(u, cps, i, e)
    && at[i] <= at[e] <= |s| && IsPieceWords(lines, s[at[i]..at[e]], ws)
  }

  /** What encoding a text without specials must give: the ids of its words, or failure if one is no token. */
  ghost predicate Gpt2TextLaw(u: PreTokenizer.Unicode, lines: seq<bytes>, tok: seq<bytes>, s: bytes,
                              ids: Option<seq<int>>) {
    exists cps: seq<int>, at: seq<nat>, wss: seq<seq<bytes>> ::
      ReadsAs(s, cps, at) && IsTextWords(u, lines, s, cps, at, 0, wss) && AreIds(tok, Flatten(wss), ids)
  }

  ghost predicate AreIds(tok: seq<bytes>, ws: seq<bytes>, ids: Option<seq<int>>) {
    match ids
    case None => exists w :: w in ws && w !in tok
    case Some(v) => |v| == |ws| && forall i | 0 <= i < |ws| :: Names(tok, v[i], ws[i])
  }

  /** Where the codepoints start, and the end. */
  function Starts(s: bytes): (at: seq<nat>)
    ensures |at| == |Codepoints(s, 0)| + 1
    ensures forall i | 0 <= i < |at| :: at[i] == Offset(Codepoints(s, 0), |s|, i)
  {
    var cps := Codepoints(s, 0);
    seq(|cps| + 1, i requires 0 <= i < |cps| + 1 => Offset(cps, |s|, i))
  }

  /** Codepoint i of a list reads as such. */
  predicate ReadsIn(s: bytes, cps: seq<(int, nat)>, i: nat)
    requires i < |cps|
  {
    ReadsAt(s, cps[i].0, cps[i].1, Offset(cps, |s|, i + 1))
  }

  predicate AllRead(s: bytes, cps: seq<(int, nat)>) { forall i | 0 <= i < |cps| :: ReadsIn(s, cps, i) }

  lemma ReadsLater(s: bytes, all: seq<(int, nat)>, head: (int, nat), rest: seq<(int, nat)>)
    requires all == [head] + rest && AllRead(s, rest) && ReadsIn(s, all, 0)
    ensures AllRead(s, all)
  {
    forall i | 0 <= i < |all| ensures ReadsIn(s, all, i) {
      if i > 0 { assert ReadsIn(s, rest, i - 1) && all[i] == rest[i - 1]; }
    }
  }

  lemma FirstCodepoint(s: bytes, o: nat)
    requires o < |s|
    ensures var (cp, n) := CpDecode(s[o..]);
            o + n <= |s| && Codepoints(s, o) == [(cp, o)] + Codepoints(s, o + n) && ReadsIn(s, Codepoints(s, o), 0)
  {}

  lemma {:induction false} CodepointsRead(s: bytes, o: nat)
    requires o <= |s|
    ensures AllRead(s, Codepoints(s, o))
    decreases |s| - o
  {
    if o < |s| {
      FirstCodepoint(s, o);
      var (cp, n) := CpDecode(s[o..]);
      CodepointsRead(s, o + n);
      ReadsLater(s, Codepoints(s, o), (cp, o), Codepoints(s, o + n));
    }
  }

  lemma TextReadsAs(s: bytes)
    ensures ReadsAs(s, Values(Codepoints(s, 0)), Starts(s))
  {
    var cps := Codepoints(s, 0);
    CodepointsRead(s, 0);
    forall i | 0 <= i < |cps| ensures ReadsAt(s, cps[i].0, Starts(s)[i], Starts(s)[i + 1]) {
      assert ReadsIn(s, cps, i);
    }
  }

  lemma {:induction false} PiecesKeepLaw(u: PreTokenizer.Unicode, lines: seq<bytes>, s: bytes, i: nat)
    returns (wss: seq<seq<bytes>>)
    requires PreTokenizer.Usable(u) && i <= |Codepoints(s, 0)|
    ensures IsTextWords(u, lines, s, Values(Codepoints(s, 0)), Starts(s), i, wss)
    ensures Flatten(wss) == AllWords(lines, Pieces(u, s, Codepoints(s, 0), i))
    decreases |Codepoints(s, 0)| - i
  {
    var cps := Codepoints(s, 0);
    if i == |cps| {
      wss := [];
    } else {
      PreTokenizer.QwenProgress(u, Values(cps), i);
      var e := PreTokenizer.Match(u, PreTokenizer.QWEN2, Values(cps), i).value;
      PreTokenizer.MatchIsPiece(u, Values(cps), i, e);
      PieceSpan(u, s, i, e);
      var piece := s[Offset(cps, |s|, i)..Offset(cps, |s|, e)];
      PieceKeepsLaw(lines, piece);
      var rest := PiecesKeepLaw(u, lines, s, e);
      wss := [PieceWords(lines, piece)] + rest;
      assert wss[1..] == rest;
      assert NextWords(u, lines, s, Values(cps), Starts(s), i, e, wss[0]);
      AllWordsHead(lines, piece, Pieces(u, s, cps, e));
    }
  }

  lemma AllWordsHead(lines: seq<bytes>, piece: bytes, rest: seq<bytes>)
    ensures AllWords(lines, [piece] + rest) == PieceWords(lines, piece) + AllWords(lines, rest)
  {
    assert ([piece] + rest)[1..] == rest;
  }

  lemma KnownIds(tok: seq<bytes>, ws: seq<bytes>)
    ensures AreIds(tok, ws, if Known(tok, ws) then Some(Ids(tok, ws)) else None)
  {
    if Known(tok, ws) {
      forall i | 0 <= i < |ws| ensures Names(tok, Ids(tok, ws)[i], ws[i]) {
        assert ws[i] in ws;
        LookupNames(tok, ws[i]);
      }
    } else {
      var w :| w in ws && Lookup(tok, w) < 0;
      LookupNames(tok, w);
    }
  }

  /** What encode_text emits keeps the law: for every byte string, ids or failure. */
  lemma TextKeepsLaw(u: PreTokenizer.Unicode, lines: seq<bytes>, tok: seq<bytes>, s: bytes)
    requires PreTokenizer.Usable(u)
    ensures var ws := TextWords(u, lines, s);
            Gpt2TextLaw(u, lines, tok, s, if Known(tok, ws) then Some(Ids(tok, ws)) else None)
  {
    TextReadsAs(s);
    var wss := PiecesKeepLaw(u, lines, s, 0);
    KnownIds(tok, TextWords(u, lines, s));
  }

  // ---- with specials ----

  ghost predicate Gpt2SegmentLaw(u: PreTokenizer.Unicode, lines: seq<bytes>, tok: seq<bytes>, g: Segment,
                                 ids: Option<seq<int>>) {
    match g case Plain(text) => Gpt2TextLaw(u, lines, tok, text, ids) case Token(sp) => ids == Some([sp.id])
  }

  ghost predicate Gpt2SegmentsLaw(u: PreTokenizer.Unicode, lines: seq<bytes>, tok: seq<bytes>, gs: seq<Segment>,
                                  parts: seq<Option<seq<int>>>) {
    |parts| == |gs| && forall i | 0 <= i < |gs| :: Gpt2SegmentLaw(u, lines, tok, gs[i], parts[i])
  }

  /** All ids in order; failure if any part failed. */
  function Together(parts: seq<Option<seq<int>>>): Option<seq<int>> {
    if parts == [] then Some([]) else
    match (parts[0], Together(parts[1..]))
    case (Some(a), Some(b)) => Some(a + b)
    case _ => None
  }

  /** What the lane must give for a whole text. */
  ghost predicate Gpt2Law(u: PreTokenizer.Unicode, lines: seq<bytes>, tok: seq<bytes>, spec: seq<Special>, parse: bool,
                          s: bytes, ids: Option<seq<int>>) {
    exists gs: seq<Segment>, parts: seq<Option<seq<int>>> ::
      && CutAtSpecials(if parse then spec else [], s, 0, gs) && Gpt2SegmentsLaw(u, lines, tok, gs, parts)
      && ids == Together(parts)
  }

  lemma SegmentKeepsLaw(u: PreTokenizer.Unicode, lines: seq<bytes>, tok: seq<bytes>, g: Segment)
    requires PreTokenizer.Usable(u)
    ensures Gpt2SegmentLaw(u, lines, tok, g, Lane.SegmentIds(u, lines, tok, g))
  {
    if g.Plain? { TextKeepsLaw(u, lines, tok, g.text); }
  }

  lemma SegmentsPrepend(u: PreTokenizer.Unicode, lines: seq<bytes>, tok: seq<bytes>, gs: seq<Segment>,
                        first: Option<seq<int>>, rest: seq<Option<seq<int>>>)
    requires gs != [] && Gpt2SegmentLaw(u, lines, tok, gs[0], first) && Gpt2SegmentsLaw(u, lines, tok, gs[1..], rest)
    ensures Gpt2SegmentsLaw(u, lines, tok, gs, [first] + rest)
    ensures Together([first] + rest) == match (first, Together(rest))
                                        case (Some(a), Some(b)) => Some(a + b)
                                        case _ => None
  {
    var parts := [first] + rest;
    assert parts[1..] == rest;
    forall i | 0 <= i < |gs| ensures Gpt2SegmentLaw(u, lines, tok, gs[i], parts[i]) {
      if i > 0 { assert Gpt2SegmentLaw(u, lines, tok, gs[1..][i - 1], rest[i - 1]); }
    }
  }

  lemma {:induction false} SegmentsKeepGpt2Law(u: PreTokenizer.Unicode, lines: seq<bytes>, tok: seq<bytes>,
                                               gs: seq<Segment>) returns (parts: seq<Option<seq<int>>>)
    requires PreTokenizer.Usable(u)
    ensures Gpt2SegmentsLaw(u, lines, tok, gs, parts) && Lane.SegmentsIds(u, lines, tok, gs) == Together(parts)
  {
    if gs == [] {
      parts := [];
    } else {
      SegmentKeepsLaw(u, lines, tok, gs[0]);
      var rest := SegmentsKeepGpt2Law(u, lines, tok, gs[1..]);
      SegmentsPrepend(u, lines, tok, gs, Lane.SegmentIds(u, lines, tok, gs[0]), rest);
      parts := [Lane.SegmentIds(u, lines, tok, gs[0])] + rest;
    }
  }

  /** The GPT2 lane keeps its law for every byte string, failure included. */
  lemma Gpt2KeepsLaw(u: PreTokenizer.Unicode, lines: seq<bytes>, tok: seq<bytes>, spec: seq<Special>, parse: bool,
                     s: bytes)
    requires PreTokenizer.Usable(u)
    ensures Gpt2Law(u, lines, tok, spec, parse, s, Lane.EncodeIds(u, lines, tok, spec, parse, s))
  {
    var list := if parse then spec else [];
    SegmentsAreCut(list, s, 0, 0);
    var parts := SegmentsKeepGpt2Law(u, lines, tok, Segments(list, s));
  }
}
