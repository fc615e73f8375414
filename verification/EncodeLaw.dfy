/**
 * The two encoders with U+2581 keep the laws of MergeLaw: gemma4 by merge lines and newline runs, SPM by
 * scores. Cutting at specials is stated here for all three lanes.
 */
module EncodeLaw {
  import opened Common
  import opened Vocab
  import opened MergeSpec
  import opened MergeLines
  import opened MergeLaw
  import opened MergeChain
  import opened Text
  import opened Fallback
  import opened Specials
  import Build = Gemma4Build
  import G4 = Gemma4Merge
  import Gemma4 = Gemma4Encode
  import Score = SpmMerge
  import Sp = Spm

  // ---- words ----

  lemma HexNameIs(b: byte)
    ensures ByteName(b) == HexName(b)
  {
    assert forall n | 0 <= n < 16 :: HexDigit(n) == DIGITS[n];
  }

  ghost predicate HasByteTokens(tok: seq<bytes>) { forall b: byte :: HexName(b) in tok }

  lemma WordIdsKeepLaw(tok: seq<bytes>, w: bytes)
    requires HasByteTokens(tok)
    ensures IsWordIds(tok, w, WordIds(tok, w))
  {
    LookupNames(tok, w);
    if w !in tok {
      forall j | 0 <= j < |w| ensures Names(tok, ByteIds(tok, w)[j], HexName(w[j])) {
        HexNameIs(w[j]);
        LookupNames(tok, HexName(w[j]));
      }
    }
  }

  lemma {:induction false} WordsIdsKeepLaw(tok: seq<bytes>, ws: seq<bytes>) returns (parts: seq<seq<int>>)
    requires HasByteTokens(tok)
    ensures PartsAreWordIds(tok, ws, parts) && WordsIds(tok, ws) == Flatten(parts)
  {
    if ws == [] {
      parts := [];
    } else {
      WordIdsKeepLaw(tok, ws[0]);
      var rest := WordsIdsKeepLaw(tok, ws[1..]);
      parts := [WordIds(tok, ws[0])] + rest;
      assert parts[1..] == rest;
      forall i | 0 <= i < |ws| ensures IsWordIds(tok, ws[i], parts[i]) {
        if i > 0 { assert IsWordIds(tok, ws[1..][i - 1], rest[i - 1]); }
      }
    }
  }

  lemma ByteTokensNamed(tok: seq<bytes>)
    requires forall b: nat | b < 256 :: Lookup(tok, ByteName(b)) >= 0
    ensures HasByteTokens(tok)
  {
    forall b: byte ensures HexName(b) in tok {
      HexNameIs(b);
      assert Lookup(tok, ByteName(b)) >= 0;
    }
  }

  // ---- escaping and cutting ----

  lemma {:induction false} EscapeIsWithBlocks(s: bytes)
    ensures Escape(s) == WithBlocks(s)
  {
    if s != [] {
      EscapeIsWithBlocks(s[1..]);
      var parts := seq(|s|, i requires 0 <= i < |s| => Spaced(s[i]));
      var rest := seq(|s[1..]|, i requires 0 <= i < |s[1..]| => Spaced(s[1..][i]));
      assert parts[1..] == rest;
    }
  }

  /** The length that the gemma4 lane reads off a first byte. */
  function ClaimedByGemma4(b: byte): nat { if b < 0xC0 then 1 else if b < 0xE0 then 2 else if b < 0xF0 then 3 else 4 }

  /** In the SPM lane a first byte of 0xF8 or more stands alone. */
  function ClaimedBySpm(b: byte): nat { if b < 0xF8 then ClaimedByGemma4(b) else 1 }

  function Claimed(lane: Lane): byte -> nat {
    match lane case Gemma4 => (b: byte) => ClaimedByGemma4(b) case Spm => (b: byte) => ClaimedBySpm(b)
  }

  lemma LeadIsClaimed(lane: Lane, b: byte)
    ensures LeadLen(lane, b) == Claimed(lane)(b) && 1 <= LeadLen(lane, b)
  {}

  lemma {:induction false} CharsAreCut(s: bytes, lane: Lane)
    ensures CutBy(Claimed(lane), s, Chars(s, lane))
    decreases |s|
  {
    CharsText(s, lane);
    if s != [] {
      var n := Min(LeadLen(lane, s[0]), |s|);
      LeadIsClaimed(lane, s[0]);
      CharsAreCut(s[n..], lane);
      var ws, rest := Chars(s, lane), Chars(s[n..], lane);
      forall i | 0 <= i < |ws| ensures ClaimedLength(Claimed(lane), ws[i], i + 1 == |ws|) {
        if i > 0 {
          assert ClaimedLength(Claimed(lane), rest[i - 1], i - 1 + 1 == |rest|);
        } else {
          assert n < |s| ==> rest != [];
        }
      }
    }
  }

  // ---- gemma4 ----

  /** A line "a b" split at its first space after the first byte. */
  predicate SplitLine(l: bytes, a: bytes, b: bytes) {
    a != [] && b != [] && l == a + [0x20] + b && 0x20 !in a[1..]
  }

  lemma SidesAreSplit(l: bytes, a: bytes, b: bytes)
    ensures Sides(l) == Some((a, b)) <==> SplitLine(l, a, b)
  {
    if SplitLine(l, a, b) {
      forall i | 1 <= i < |a| ensures l[i] != SPACE { assert a[1..][i - 1] == l[i]; }
      SplitPointSkips(l, 1, |a|);
      assert l[..|a|] == a && l[|a| + 1..] == b;
    }
    if Sides(l) == Some((a, b)) {
      SplitPointFirst(l, 1);
      forall i | 0 <= i < |a| - 1 ensures a[1..][i] != 0x20 { assert l[i + 1] == a[1..][i]; }
    }
  }

  lemma {:induction false} SplitPointFirst(l: bytes, k: nat)
    requires 1 <= k
    ensures SplitPoint(l, k) > 0 ==> forall i | k <= i < SplitPoint(l, k) :: l[i] != SPACE
    decreases |l| - k
  {
    if k < |l| && l[k] != SPACE { SplitPointFirst(l, k + 1); }
  }

  /** Both symbols of every line and what they join to are tokens, and so is the name of every byte. */
  ghost predicate FitsVocabulary(tok: seq<bytes>, merges: seq<bytes>) {
    && (forall l, a, b | l in merges && SplitLine(l, a, b) :: a in tok && b in tok && a + b in tok)
    && HasByteTokens(tok)
  }

  lemma LineFits(tok: seq<bytes>, l: bytes)
    ensures Build.Representable(tok, l) <==> forall a, b | SplitLine(l, a, b) :: a in tok && b in tok && a + b in tok
  {
    forall a: bytes, b: bytes ensures Sides(l) == Some((a, b)) <==> SplitLine(l, a, b) { SidesAreSplit(l, a, b); }
    if Sides(l).Some? {
      var (a, b) := Sides(l).value;
      LookupNames(tok, a);
      LookupNames(tok, b);
      LookupNames(tok, a + b);
      assert SplitLine(l, a, b);
    }
  }

  /** The tables can be built exactly for a vocabulary that the merge lines fit. */
  lemma BuildableIsFit(tok: seq<bytes>, merges: seq<bytes>)
    ensures Build.Buildable(tok, merges) <==> 0 < |merges| < 0x8000_0000 && FitsVocabulary(tok, merges)
  {
    forall i | 0 <= i < |merges|
      ensures Build.Representable(tok, merges[i])
         <==> forall a, b | SplitLine(merges[i], a, b) :: a in tok && b in tok && a + b in tok
    {
      LineFits(tok, merges[i]);
    }
    forall b: byte ensures Lookup(tok, ByteName(b)) >= 0 <==> HexName(b) in tok {
      HexNameIs(b);
      LookupNames(tok, HexName(b));
    }
  }

  lemma Gemma4RanksByLine(merges: seq<bytes>)
    ensures RanksByLine(SplitLine, merges, G4.MergeRank(merges))
  {
    var rank := G4.MergeRank(merges);
    forall a: bytes, b: bytes {:trigger rank(a, b)} ensures RanksPair(SplitLine, merges, rank(a, b), a, b) {
      var r := Build.LineRank(merges, a, b);
      forall i | 0 <= i < |merges| ensures Sides(merges[i]) == Some((a, b)) <==> SplitLine(merges[i], a, b) {
        SidesAreSplit(merges[i], a, b);
      }
      if r >= 0 { assert FirstJoining(SplitLine, merges, r, a, b); }
    }
  }

  /** The words of a text: cut by first bytes, then joined line by line until no line joins any two. */
  ghost predicate IsWordsByLine(merges: seq<bytes>, s: bytes, path: seq<seq<bytes>>) {
    LineChain(SplitLine, merges, path) && CutBy(Claimed(Gemma4), s, path[0])
  }

  /** The ids of one run: a newline run that is a token gives that token, any other run its words. */
  ghost predicate RunLaw(tok: seq<bytes>, merges: seq<bytes>, run: bytes, ids: seq<int>) {
    if Newlines(run) && run in tok then |ids| == 1 && Names(tok, ids[0], run)
    else exists path :: IsWordsByLine(merges, run, path) && AreWordIds(tok, path[|path| - 1], ids)
  }

  lemma PieceKeepsLaw(tok: seq<bytes>, merges: seq<bytes>, run: bytes, newlines: bool)
    requires HasByteTokens(tok) && run != [] && (newlines <==> Newlines(run))
    ensures RunLaw(tok, merges, run, Gemma4.PieceIds(tok, merges, run, newlines))
  {
    LookupNames(tok, run);
    if !(newlines && run in tok) {
      Gemma4RanksByLine(merges);
      CharsAreCut(run, Gemma4);
      var path := MergedByLine(SplitLine, merges, G4.MergeRank(merges), Chars(run, Gemma4));
      var parts := WordsIdsKeepLaw(tok, path[|path| - 1]);
      assert IsWordsByLine(merges, run, path);
    }
  }

  /** The ids of a text without specials: those of the runs of the text with U+2581 for spaces, in order. */
  ghost predicate TextLaw(tok: seq<bytes>, merges: seq<bytes>, s: bytes, ids: seq<int>) {
    exists runs: seq<bytes>, parts: seq<seq<int>> ::
      AreRuns(WithBlocks(s), runs) && RunsLaw(tok, merges, runs, parts) && ids == Flatten(parts)
  }

  ghost predicate RunsLaw(tok: seq<bytes>, merges: seq<bytes>, runs: seq<bytes>, parts: seq<seq<int>>) {
    |parts| == |runs| && forall i | 0 <= i < |runs| :: RunLaw(tok, merges, runs[i], parts[i])
  }

  lemma FirstRun(e: bytes, n: nat)
    requires e != [] && n == Gemma4.RunEnd(e, e[0] == LF, 1)
    ensures if e[0] == LF then Newlines(e[..n]) else NoNewlines(e[..n])
    ensures n < |e| ==> (e[n] == LF) != (e[0] == LF)
  {}

  lemma RunsPrepend(e: bytes, n: nat, runs: seq<bytes>)
    requires 0 < n <= |e| && AreRuns(e[n..], runs)
    requires if e[0] == LF then Newlines(e[..n]) else NoNewlines(e[..n])
    requires n < |e| ==> (e[n] == LF) != (e[0] == LF)
    ensures AreRuns(e, [e[..n]] + runs)
  {
    var all := [e[..n]] + runs;
    assert all[1..] == runs && e == e[..n] + e[n..];
    forall i | 0 <= i < |all| - 1 ensures Newlines(all[i]) <==> NoNewlines(all[i + 1]) {
      if i > 0 {
        assert Newlines(runs[i - 1]) <==> NoNewlines(runs[i - 1 + 1]);
      } else {
        assert runs[0][0] == Flatten(runs)[0] == e[n];
        assert e[..n][0] == e[0];
      }
    }
    forall i | 0 <= i < |all| ensures Newlines(all[i]) || NoNewlines(all[i]) {
      if i > 0 { assert Newlines(runs[i - 1]) || NoNewlines(runs[i - 1]); }
    }
  }

  lemma {:induction false} RunsKeepLaw(tok: seq<bytes>, merges: seq<bytes>, e: bytes)
    returns (runs: seq<bytes>, parts: seq<seq<int>>)
    requires HasByteTokens(tok)
    ensures AreRuns(e, runs) && RunsLaw(tok, merges, runs, parts) && Gemma4.RunsIds(tok, merges, e) == Flatten(parts)
    decreases |e|
  {
    if e == [] {
      runs, parts := [], [];
    } else {
      var n := Gemma4.RunEnd(e, e[0] == LF, 1);
      FirstRun(e, n);
      PieceKeepsLaw(tok, merges, e[..n], e[0] == LF);
      var more, rest := RunsKeepLaw(tok, merges, e[n..]);
      RunsPrepend(e, n, more);
      runs := [e[..n]] + more;
      parts := [Gemma4.PieceIds(tok, merges, e[..n], e[0] == LF)] + rest;
      assert parts[1..] == rest;
      forall i | 0 <= i < |runs| ensures RunLaw(tok, merges, runs[i], parts[i]) {
        if i > 0 { assert RunLaw(tok, merges, more[i - 1], rest[i - 1]); }
      }
    }
  }

  // ---- specials ----

  predicate StartsAt(sp: Special, s: bytes, pos: nat) {
    sp.surf != [] && pos + |sp.surf| <= |s| && s[pos..pos + |sp.surf|] == sp.surf
  }

  predicate NoneAt(spec: seq<Special>, s: bytes, pos: nat) { forall sp | sp in spec :: !StartsAt(sp, s, pos) }

  /** The first listed special that starts there. */
  predicate FirstAt(spec: seq<Special>, s: bytes, pos: nat, sp: Special) {
    exists j :: 0 <= j < |spec| && IsFirstAt(spec, s, pos, sp, j)
  }

  predicate IsFirstAt(spec: seq<Special>, s: bytes, pos: nat, sp: Special, j: nat)
    requires j < |spec|
  {
    spec[j] == sp && StartsAt(sp, s, pos) && forall l | 0 <= l < j :: !StartsAt(spec[l], s, pos)
  }

  /** The text from `pos` on, cut at the first special that starts anywhere, the gaps as long as can be. */
  ghost predicate CutAtSpecials(spec: seq<Special>, s: bytes, pos: nat, gs: seq<Segment>)
    decreases |gs|
  {
    if gs == [] then pos == |s| else
    match gs[0]
    case Token(sp) => FirstAt(spec, s, pos, sp) && CutAtSpecials(spec, s, pos + |sp.surf|, gs[1..])
    case Plain(text) =>
      && text != [] && pos + |text| <= |s| && text == s[pos..pos + |text|]
      && (forall q: nat | pos <= q < pos + |text| :: NoneAt(spec, s, q))
      && (|gs| > 1 ==> gs[1].Token?)
      && CutAtSpecials(spec, s, pos + |text|, gs[1..])
  }

  lemma {:induction false} FirstMatchIsFirst(spec: seq<Special>, s: bytes, pos: nat)
    ensures match FirstMatch(spec, s, pos)
            case None => NoneAt(spec, s, pos)
            case Some(sp) => FirstAt(spec, s, pos, sp)
  {
    if spec != [] {
      FirstMatchIsFirst(spec[1..], s, pos);
      if Matches(spec[0], s, pos) {
        assert IsFirstAt(spec, s, pos, spec[0], 0);
      } else {
        var m := FirstMatch(spec[1..], s, pos);
        if m.Some? {
          var j :| 0 <= j < |spec| - 1 && IsFirstAt(spec[1..], s, pos, m.value, j);
          LaterFirst(spec, s, pos, m.value, j);
        }
      }
    }
  }

  lemma LaterFirst(spec: seq<Special>, s: bytes, pos: nat, sp: Special, j: nat)
    requires j < |spec| - 1 && IsFirstAt(spec[1..], s, pos, sp, j) && !StartsAt(spec[0], s, pos)
    ensures FirstAt(spec, s, pos, sp)
  {
    forall l | 0 <= l < j + 1 ensures !StartsAt(spec[l], s, pos) {
      if l > 0 { assert spec[l] == spec[1..][l - 1]; }
    }
    assert IsFirstAt(spec, s, pos, sp, j + 1);
  }

  predicate NoneBetween(spec: seq<Special>, s: bytes, a: nat, b: nat) {
    forall q: nat | a <= q < b :: NoneAt(spec, s, q)
  }

  lemma GapIsCut(spec: seq<Special>, s: bytes, start: nat, i: nat, rest: seq<Segment>)
    requires start <= i <= |s| && NoneBetween(spec, s, start, i) && CutAtSpecials(spec, s, i, rest)
    requires rest == [] || rest[0].Token?
    ensures CutAtSpecials(spec, s, start, PlainSegment(s[start..i]) + rest)
  {
    if start < i {
      var gs := [Plain(s[start..i])] + rest;
      assert gs[1..] == rest;
    } else {
      assert PlainSegment(s[start..i]) + rest == rest;
    }
  }

  lemma TokenIsCut(spec: seq<Special>, s: bytes, i: nat, sp: Special, rest: seq<Segment>)
    requires FirstAt(spec, s, i, sp) && CutAtSpecials(spec, s, i + |sp.surf|, rest)
    ensures CutAtSpecials(spec, s, i, [Token(sp)] + rest)
  {
    assert ([Token(sp)] + rest)[1..] == rest;
  }

  lemma HitIsCut(spec: seq<Special>, s: bytes, start: nat, i: nat, sp: Special, rest: seq<Segment>, gs: seq<Segment>)
    requires start <= i < |s| && NoneBetween(spec, s, start, i) && FirstAt(spec, s, i, sp)
    requires CutAtSpecials(spec, s, i + |sp.surf|, rest) && gs == PlainSegment(s[start..i]) + [Token(sp)] + rest
    ensures CutAtSpecials(spec, s, start, gs)
  {
    TokenIsCut(spec, s, i, sp, rest);
    GapIsCut(spec, s, start, i, [Token(sp)] + rest);
    Assoc(PlainSegment(s[start..i]), [Token(sp)], rest);
  }

  /** The text between specials, with nothing after it. */
  lemma LastGapIsCut(spec: seq<Special>, s: bytes, start: nat)
    requires start <= |s| && NoneBetween(spec, s, start, |s|)
    ensures CutAtSpecials(spec, s, start, PlainSegment(s[start..]))
  {
    GapIsCut(spec, s, start, |s|, []);
    assert s[start..|s|] == s[start..];
    assert PlainSegment(s[start..]) + [] == PlainSegment(s[start..]);
  }

  lemma {:induction false} SegmentsAreCut(spec: seq<Special>, s: bytes, start: nat, i: nat)
    requires start <= i <= |s| && NoneBetween(spec, s, start, i)
    ensures CutAtSpecials(spec, s, start, SegmentsFrom(spec, s, start, i))
    decreases |s| - i
  {
    if i == |s| {
      LastGapIsCut(spec, s, start);
    } else {
      FirstMatchIsFirst(spec, s, i);
      match FirstMatch(spec, s, i)
      case None =>
        NoneAtNext(spec, s, start, i);
        SegmentsAreCut(spec, s, start, i + 1);
      case Some(sp) =>
        var e, rest := HitPlaces(spec, s, start, i, sp);
        SegmentsAreCut(spec, s, e, e);
        HitIsCut(spec, s, start, i, sp, rest, SegmentsFrom(spec, s, start, i));
    }
  }

  lemma NoneAtNext(spec: seq<Special>, s: bytes, start: nat, i: nat)
    requires start <= i && NoneBetween(spec, s, start, i) && NoneAt(spec, s, i)
    ensures NoneBetween(spec, s, start, i + 1)
  {}

  lemma HitPlaces(spec: seq<Special>, s: bytes, start: nat, i: nat, sp: Special) returns (e: nat, rest: seq<Segment>)
    requires start <= i < |s| && FirstMatch(spec, s, i) == Some(sp)
    ensures i < e == i + |sp.surf| <= |s| && rest == SegmentsFrom(spec, s, e, e)
    ensures SegmentsFrom(spec, s, start, i) == PlainSegment(s[start..i]) + [Token(sp)] + rest
    ensures NoneBetween(spec, s, e, e)
  {
    SegmentsHit(spec, s, start, i, sp);
    e := i + |sp.surf|;
    rest := SegmentsFrom(spec, s, e, e);
  }

  // ---- the gemma4 encoder ----

  ghost predicate SegmentLaw(tok: seq<bytes>, merges: seq<bytes>, g: Segment, ids: seq<int>) {
    match g case Plain(text) => TextLaw(tok, merges, text, ids) case Token(sp) => ids == [sp.id]
  }

  ghost predicate SegmentsLaw(tok: seq<bytes>, merges: seq<bytes>, gs: seq<Segment>, parts: seq<seq<int>>) {
    |parts| == |gs| && forall i | 0 <= i < |gs| :: SegmentLaw(tok, merges, gs[i], parts[i])
  }

  /** What the ids of a whole text must be. */
  ghost predicate Gemma4Law(tok: seq<bytes>, merges: seq<bytes>, spec: seq<Special>, parse: bool, bos: int, s: bytes,
                            ids: seq<int>) {
    exists gs: seq<Segment>, parts: seq<seq<int>> ::
      && CutAtSpecials(if parse then spec else [], s, 0, gs) && SegmentsLaw(tok, merges, gs, parts)
      && ids == (if bos >= 0 then [bos] else []) + Flatten(parts)
  }

  lemma TextKeepsLaw(tok: seq<bytes>, merges: seq<bytes>, s: bytes)
    requires HasByteTokens(tok)
    ensures TextLaw(tok, merges, s, Gemma4.FragmentIds(tok, merges, s))
  {
    EscapeIsWithBlocks(s);
    var runs, parts := RunsKeepLaw(tok, merges, Escape(s));
  }

  lemma {:induction false} SegmentsKeepLaw(tok: seq<bytes>, merges: seq<bytes>, gs: seq<Segment>)
    returns (parts: seq<seq<int>>)
    requires HasByteTokens(tok)
    ensures SegmentsLaw(tok, merges, gs, parts) && Gemma4.SegmentsIds(tok, merges, gs) == Flatten(parts)
  {
    if gs == [] {
      parts := [];
    } else {
      if gs[0].Plain? { TextKeepsLaw(tok, merges, gs[0].text); }
      var rest := SegmentsKeepLaw(tok, merges, gs[1..]);
      parts := [Gemma4.SegmentIds(tok, merges, gs[0])] + rest;
      assert parts[1..] == rest;
      forall i | 0 <= i < |gs| ensures SegmentLaw(tok, merges, gs[i], parts[i]) {
        if i > 0 { assert SegmentLaw(tok, merges, gs[1..][i - 1], rest[i - 1]); }
      }
    }
  }

  /** The gemma4 encoder keeps its law for every byte string. */
  lemma Gemma4KeepsLaw(tok: seq<bytes>, merges: seq<bytes>, spec: seq<Special>, parse: bool, bos: int, s: bytes)
    requires Build.Buildable(tok, merges)
    ensures Gemma4Law(tok, merges, spec, parse, bos, s, Gemma4.EncodeIds(tok, merges, spec, parse, bos, s))
  {
    ByteTokensNamed(tok);
    var list := if parse then spec else [];
    SegmentsAreCut(list, s, 0, 0);
    var parts := SegmentsKeepLaw(tok, merges, Segments(list, s));
  }

  // ---- the SPM encoder ----

  lemma BestIsNextByScore(tok: seq<bytes>, scores: seq<real>, ws: seq<bytes>, k: nat) returns (id: nat)
    requires |scores| == |tok| && IsBest(ws, Score.ScoreRank(tok, scores), k)
    ensures IsNextByScore(tok, scores, ws, k, id)
  {
    var rank := Score.ScoreRank(tok, scores);
    assert Beats(ws, rank, k, k);
    LookupNames(tok, ws[k] + ws[k + 1]);
    id := Lookup(tok, ws[k] + ws[k + 1]);
    forall l: nat, other: nat | Spells(tok, ws, l, other)
      ensures scores[other] < scores[id] || (scores[other] == scores[id] && k <= l)
    {
      LookupNames(tok, ws[l] + ws[l + 1]);
      assert Lookup(tok, ws[l] + ws[l + 1]) == other;
      assert Beats(ws, rank, k, l);
    }
  }

  lemma MergedByScore(tok: seq<bytes>, scores: seq<real>, ws: seq<bytes>) returns (path: seq<seq<bytes>>)
    requires |scores| == |tok|
    ensures ScoreChain(tok, scores, path) && path[0] == ws
    ensures path[|path| - 1] == Merged(ws, Score.ScoreRank(tok, scores))
  {
    var rank := Score.ScoreRank(tok, scores);
    path := MergedPath(ws, rank);
    forall x | 0 <= x < |path| - 1 ensures ScoreStep(tok, scores, path[x], path[x + 1]) {
      assert BestStep(rank, path[x], path[x + 1]);
      var k: nat :| IsBest(path[x], rank, k) && Joins(path[x], k, path[x + 1]);
      var id := BestIsNextByScore(tok, scores, path[x], k);
    }
    var last := path[|path| - 1];
    forall k | 0 <= k < |last| - 1 ensures last[k] + last[k + 1] !in tok {
      assert PairRank(last, rank, k).None?;
      LookupNames(tok, last[k] + last[k + 1]);
    }
  }

  /** The ids of a text without specials: its words, cut by first bytes and joined by score. */
  ghost predicate SpmTextLaw(tok: seq<bytes>, scores: seq<real>, s: bytes, ids: seq<int>)
    requires |scores| == |tok|
  {
    exists path :: IsWordsByScore(tok, scores, WithBlocks(s), path) && AreWordIds(tok, path[|path| - 1], ids)
  }

  ghost predicate IsWordsByScore(tok: seq<bytes>, scores: seq<real>, e: bytes, path: seq<seq<bytes>>)
    requires |scores| == |tok|
  {
    ScoreChain(tok, scores, path) && CutBy(Claimed(Spm), e, path[0])
  }

  lemma SpmTextKeepsLaw(tok: seq<bytes>, scores: seq<real>, s: bytes)
    requires |scores| == |tok| && HasByteTokens(tok)
    ensures SpmTextLaw(tok, scores, s, Sp.FragmentIds(tok, scores, s))
  {
    EscapeIsWithBlocks(s);
    CharsAreCut(Escape(s), Spm);
    var path := MergedByScore(tok, scores, Chars(Escape(s), Spm));
    var parts := WordsIdsKeepLaw(tok, path[|path| - 1]);
    assert IsWordsByScore(tok, scores, WithBlocks(s), path);
  }

  ghost predicate SpmSegmentLaw(tok: seq<bytes>, scores: seq<real>, g: Segment, ids: seq<int>)
    requires |scores| == |tok|
  {
    match g case Plain(text) => SpmTextLaw(tok, scores, text, ids) case Token(sp) => ids == [sp.id]
  }

  ghost predicate SpmSegmentsLaw(tok: seq<bytes>, scores: seq<real>, gs: seq<Segment>, parts: seq<seq<int>>)
    requires |scores| == |tok|
  {
    |parts| == |gs| && forall i | 0 <= i < |gs| :: SpmSegmentLaw(tok, scores, gs[i], parts[i])
  }

  ghost predicate SpmLaw(tok: seq<bytes>, scores: seq<real>, spec: seq<Special>, parse: bool, bos: int, s: bytes,
                         ids: seq<int>)
    requires |scores| == |tok|
  {
    exists gs: seq<Segment>, parts: seq<seq<int>> ::
      && CutAtSpecials(if parse then spec else [], s, 0, gs) && SpmSegmentsLaw(tok, scores, gs, parts)
      && ids == (if bos >= 0 then [bos] else []) + Flatten(parts)
  }

  lemma SpmSegmentsPrepend(tok: seq<bytes>, scores: seq<real>, gs: seq<Segment>, parts: seq<seq<int>>,
                           rest: seq<seq<int>>)
    requires |scores| == |tok| && gs != [] && SpmSegmentsLaw(tok, scores, gs[1..], rest)
    requires |parts| > 0 && parts == [parts[0]] + rest && SpmSegmentLaw(tok, scores, gs[0], parts[0])
    ensures SpmSegmentsLaw(tok, scores, gs, parts) && Flatten(parts) == parts[0] + Flatten(rest)
  {
    assert parts[1..] == rest;
    forall i | 0 <= i < |gs| ensures SpmSegmentLaw(tok, scores, gs[i], parts[i]) {
      if i > 0 { assert SpmSegmentLaw(tok, scores, gs[1..][i - 1], rest[i - 1]); }
    }
  }

  lemma {:induction false} SpmSegmentsKeepLaw(tok: seq<bytes>, scores: seq<real>, gs: seq<Segment>)
    returns (parts: seq<seq<int>>)
    requires |scores| == |tok| && HasByteTokens(tok)
    ensures SpmSegmentsLaw(tok, scores, gs, parts) && Sp.SegmentsIds(tok, scores, gs) == Flatten(parts)
  {
    if gs == [] {
      parts := [];
    } else {
      if gs[0].Plain? { SpmTextKeepsLaw(tok, scores, gs[0].text); }
      var rest := SpmSegmentsKeepLaw(tok, scores, gs[1..]);
      parts := [Sp.SegmentIds(tok, scores, gs[0])] + rest;
      SpmSegmentsPrepend(tok, scores, gs, parts, rest);
    }
  }

  /** The SPM encoder keeps its law for every byte string. */
  lemma SpmKeepsLaw(tok: seq<bytes>, scores: seq<real>, spec: seq<Special>, parse: bool, bos: int, s: bytes)
    requires |scores| == |tok| && forall b: nat | b < 256 :: Lookup(tok, ByteName(b)) >= 0
    ensures var ids := (if bos >= 0 then [bos] else [])
                       + Sp.SegmentsIds(tok, scores, Segments(if parse then spec else [], s));
            SpmLaw(tok, scores, spec, parse, bos, s, ids)
  {
    ByteTokensNamed(tok);
    var list := if parse then spec else [];
    SegmentsAreCut(list, s, 0, 0);
    var parts := SpmSegmentsKeepLaw(tok, scores, Segments(list, s));
  }
}
