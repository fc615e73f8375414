/**
 * What text comes back for the symbols of the gemma4 lane: well-formed ones with U+2581 read as a
 * space, broken ones as they are. Nothing here depends on the vocabulary.
 */
module Gemma4Reading {
  import opened Common
  import opened MergeSpec
  import opened Text
  import opened Utf8
  import opened Specials
  import opened Gemma4Encode
  import opened Gemma4Decode

  /** The text with every U+2581 character read as a space. */
  function Fold(s: bytes): bytes
    requires WellFormed(s)
  {
    if s == [] then [] else
    var n := CharLen(s);
    (if s[..n] == BLOCK then [SPACE] else s[..n]) + Fold(s[n..])
  }

  /** U+2581 is one of the characters of the text. */
  predicate HasBlock(s: bytes)
    requires WellFormed(s)
  {
    s != [] && (s[..CharLen(s)] == BLOCK || HasBlock(s[CharLen(s)..]))
  }

  lemma UnescapeTail(w: bytes, rest: bytes)
    requires w != [] && w[0] != 0xE2
    ensures Unescape(w + rest) == [w[0]] + Unescape(w[1..] + rest)
  {
    var u := w + rest;
    assert |u| >= 3 ==> u[..3][0] == w[0];
    assert u[1..] == w[1..] + rest;
  }

  /** Bytes that cannot start U+2581 are copied. */
  lemma {:induction false} UnescapeCopies(w: bytes, rest: bytes)
    requires forall i | 0 <= i < |w| :: w[i] != 0xE2
    ensures Unescape(w + rest) == w + Unescape(rest)
  {
    if w == [] {
      assert w + rest == rest;
    } else {
      UnescapeTail(w, rest);
      UnescapeCopies(w[1..], rest);
      assert [w[0]] + (w[1..] + Unescape(rest)) == w + Unescape(rest);
    }
  }

  /** A whole character never straddles a U+2581 of the scan. */
  lemma UnescapeChar(c: bytes, rest: bytes)
    requires OneChar(c)
    ensures Unescape(c + rest) == (if c == BLOCK then [SPACE] else c) + Unescape(rest)
  {
    var u := c + rest;
    if c == BLOCK {
      assert u[..3] == BLOCK && u[3..] == rest;
    } else if c[0] != 0xE2 {
      forall i | 0 <= i < |c| ensures c[i] != 0xE2 {
        if i > 0 { CharTails(c, i); }
      }
      UnescapeCopies(c, rest);
    } else {
      assert |c| == 3 && u[..3] == c;
      var t := c[1..];
      forall i | 0 <= i < |t| ensures t[i] != 0xE2 {
        CharTails(c, i + 1);
      }
      assert u[1..] == t + rest;
      UnescapeCopies(t, rest);
      assert [c[0]] + (t + Unescape(rest)) == c + Unescape(rest);
    }
  }

  /** On well-formed text the scan reads character by character. */
  lemma {:induction false} UnescapeFolds(s: bytes, rest: bytes)
    requires WellFormed(s)
    ensures Unescape(s + rest) == Fold(s) + Unescape(rest)
    decreases |s|
  {
    if s == [] {
      assert s + rest == rest;
    } else {
      var c, t := s[..CharLen(s)], s[CharLen(s)..];
      SplitChar(s);
      Assoc(c, t, rest);
      UnescapeChar(c, t + rest);
      UnescapeFolds(t, rest);
      Assoc(if c == BLOCK then [SPACE] else c, Fold(t), Unescape(rest));
    }
  }

  lemma UnescapeIsFold(s: bytes)
    requires WellFormed(s)
    ensures Unescape(s) == Fold(s)
  {
    UnescapeFolds(s, []);
    assert s + [] == s;
  }

  lemma FoldChar(c: bytes, t: bytes)
    requires OneChar(c) && WellFormed(t)
    ensures WellFormed(c + t) && Fold(c + t) == (if c == BLOCK then [SPACE] else c) + Fold(t)
  {
    CharLenPrefix(c, t);
    assert c[|c|..] == [] && c[..|c|] == c;
  }

  /** Escaping keeps text well formed, and unescaping it folds the text. */
  lemma {:induction false} EscapeFolds(s: bytes)
    requires WellFormed(s)
    ensures WellFormed(Escape(s)) && Fold(Escape(s)) == Fold(s)
    decreases |s|
  {
    if s != [] {
      var c, t := s[..CharLen(s)], s[CharLen(s)..];
      SplitChar(s);
      EscapeFolds(t);
      EscapeConcat(c, t);
      EscapeChar(c);
      FoldChar(Escape(c), Escape(t));
    }
  }

  lemma {:induction false} FoldConcat(a: bytes, b: bytes)
    requires WellFormed(a) && WellFormed(b)
    ensures WellFormed(a + b) && Fold(a + b) == Fold(a) + Fold(b)
  {
    WellFormedConcat(a, b);
    UnescapeIsFold(a + b);
    UnescapeFolds(a, b);
    UnescapeIsFold(b);
  }

  lemma {:induction false} FoldLength(s: bytes)
    requires WellFormed(s)
    ensures !HasBlock(s) ==> Fold(s) == s
    ensures HasBlock(s) ==> |Fold(s)| < |s|
    ensures |Fold(s)| <= |s|
    decreases |s|
  {
    if s != [] {
      FoldLength(s[CharLen(s)..]);
      SplitChar(s);
    }
  }

  // ---- symbols ----

  /** The text one symbol comes back as. */
  function Reads(w: bytes): bytes { if WellFormed(w) then Fold(w) else w }

  function EachReads(ws: seq<bytes>): (r: seq<bytes>)
    ensures |r| == |ws| && forall i | 0 <= i < |ws| :: r[i] == Reads(ws[i])
  {
    seq(|ws|, i requires 0 <= i < |ws| => Reads(ws[i]))
  }

  function ReadAll(ws: seq<bytes>): bytes { Flatten(EachReads(ws)) }

  lemma ReadAllConcat(a: seq<bytes>, b: seq<bytes>)
    ensures ReadAll(a + b) == ReadAll(a) + ReadAll(b)
  {
    assert EachReads(a + b) == EachReads(a) + EachReads(b);
    FlattenConcat(EachReads(a), EachReads(b));
  }

  lemma ReadAllOne(w: bytes)
    ensures ReadAll([w]) == Reads(w)
  {
    assert EachReads([w]) == [Reads(w)];
    FlattenOne(Reads(w));
  }

  /** Joining two symbols that read the same apart and together does not change the text. */
  lemma MergeAtReads(ws: seq<bytes>, k: nat)
    requires k + 1 < |ws| && Reads(ws[k] + ws[k + 1]) == Reads(ws[k]) + Reads(ws[k + 1])
    ensures ReadAll(MergeAt(ws, k)) == ReadAll(ws)
  {
    assert EachReads(MergeAt(ws, k)) == MergeAt(EachReads(ws), k);
    MergeAtText(EachReads(ws), k);
  }

  // ---- cutting ----

  /** How much of the text its first symbol takes: what the lead byte claims, within the run. */
  function StepLen(e: bytes): (n: nat)
    requires e != []
    ensures 1 <= n <= |e|
  {
    Min(LeadLen(Gemma4, e[0]), RunEnd(e, e[0] == LF, 1))
  }

  /** All initial symbols of an escaped text, run after run. */
  function CutText(e: bytes): seq<bytes>
    decreases |e|
  {
    if e == [] then [] else [e[..StepLen(e)]] + CutText(e[StepLen(e)..])
  }

  lemma {:induction false} RunEndIs(e: bytes, newlines: bool, k: nat, n: nat)
    requires k <= n <= |e| && forall i | k <= i < n :: (e[i] == LF) == newlines
    requires n == |e| || (e[n] == LF) != newlines
    ensures RunEnd(e, newlines, k) == n
    decreases n - k
  {
    if k < n { RunEndIs(e, newlines, k + 1, n); }
  }

  /** A later start in the same run reaches the same end. */
  lemma RunEndInside(e: bytes, newlines: bool, m: nat)
    requires e != [] && 1 <= m < RunEnd(e, newlines, 1)
    ensures RunEnd(e[m..], newlines, 1) == RunEnd(e, newlines, 1) - m
  {
    var n := RunEnd(e, newlines, 1);
    RunEndIs(e, newlines, m + 1, n);
    RunEndShift(e, newlines, m, m + 1);
  }

  lemma CharsWhole(s: bytes)
    requires s != [] && LeadLen(Gemma4, s[0]) >= |s|
    ensures Chars(s, Gemma4) == [s]
  {
    assert s[..|s|] == s && s[|s|..] == [];
  }

  lemma CharsHead(s: bytes, m: nat)
    requires s != [] && m == LeadLen(Gemma4, s[0]) <= |s|
    ensures Chars(s, Gemma4) == [s[..m]] + Chars(s[m..], Gemma4)
  {}

  lemma SliceTwice(e: bytes, m: nat, n: nat)
    requires m <= n <= |e|
    ensures e[..n][..m] == e[..m] && e[..n][m..] == e[m..][..n - m] && e[m..][n - m..] == e[n..]
  {}

  lemma CutHead(e: bytes, m: nat)
    requires e != [] && m == StepLen(e)
    ensures CutText(e) == [e[..m]] + CutText(e[m..])
  {}

  lemma CutRunStep(e: bytes, m: nat, n: nat)
    requires e != [] && m == StepLen(e) == LeadLen(Gemma4, e[0]) && m < n <= |e|
    requires CutText(e[m..]) == Chars(e[m..][..n - m], Gemma4) + CutText(e[m..][n - m..])
    ensures CutText(e) == Chars(e[..n], Gemma4) + CutText(e[n..])
  {
    var w, a, b := e[..m], Chars(e[m..][..n - m], Gemma4), CutText(e[n..]);
    CutHead(e, m);
    SliceTwice(e, m, n);
    CharsHead(e[..n], m);
    Assoc([w], a, b);
  }

  lemma CutWhole(e: bytes, n: nat)
    requires e != [] && n == StepLen(e) == RunEnd(e, e[0] == LF, 1)
    ensures CutText(e) == Chars(e[..n], Gemma4) + CutText(e[n..])
  {
    CutHead(e, n);
    CharsWhole(e[..n]);
  }

  /** The symbols of a text are those of its first run and those of the rest. */
  lemma {:induction false} CutRun(e: bytes, n: nat)
    requires e != [] && n == RunEnd(e, e[0] == LF, 1)
    ensures CutText(e) == Chars(e[..n], Gemma4) + CutText(e[n..])
    decreases |e|
  {
    var m := StepLen(e);
    if m == n {
      CutWhole(e, n);
    } else {
      RunRest(e, m, n);
      CutRun(e[m..], n - m);
      CutRunStep(e, m, n);
    }
  }

  lemma RunRest(e: bytes, m: nat, n: nat)
    requires e != [] && 1 <= m < n == RunEnd(e, e[0] == LF, 1)
    ensures e[m..] != [] && n - m == RunEnd(e[m..], e[m..][0] == LF, 1)
  {
    RunEndInside(e, e[0] == LF, m);
    assert (e[m..][0] == LF) == (e[0] == LF);
  }

  /** A well-formed symbol is one character. */
  lemma SymbolForm(e: bytes)
    requires e != [] && WellFormed(e[..StepLen(e)])
    ensures OneChar(e[..StepLen(e)])
  {}

  /** The symbols of a newline run read as the run. */
  lemma {:induction false} NewlinesRead(s: bytes)
    requires forall i | 0 <= i < |s| :: s[i] == LF
    ensures WellFormed(s) && Fold(s) == s && ReadAll(Chars(s, Gemma4)) == s
  {
    if s != [] {
      NewlinesRead(s[1..]);
      assert s == [LF] + s[1..] && s[..1] == [LF];
      ReadAllConcat([[LF]], Chars(s[1..], Gemma4));
      ReadAllOne([LF]);
      NewlineReads();
    }
  }

  lemma NewlineReads()
    ensures WellFormed([LF]) && Reads([LF]) == [LF]
  {
    CharReads([LF]);
  }

  // ---- well-formed text ----

  /** A well-formed text is cut into its characters and reads as its fold. */
  lemma {:induction false} WholeTextReads(e: bytes)
    requires WellFormed(e)
    ensures forall w | w in CutText(e) :: OneChar(w)
    ensures ReadAll(CutText(e)) == Fold(e)
    decreases |e|
  {
    if e != [] {
      FirstStep(e);
      var n := CharLen(e);
      WholeTextReads(e[n..]);
      ReadAllConcat([e[..n]], CutText(e[n..]));
      ReadAllOne(e[..n]);
      CharReads(e[..n]);
    }
  }

  lemma FirstStep(e: bytes)
    requires e != [] && WellFormed(e)
    ensures StepLen(e) == CharLen(e) && OneChar(e[..CharLen(e)])
  {
    var n := CharLen(e);
    FirstChar(e);
    assert LeadLen(Gemma4, e[0]) == n;
    var c := e[..n];
    forall i | 1 <= i < n ensures e[i] != LF && e[0] != LF {
      CharTails(c, i);
    }
  }

  lemma CharReads(c: bytes)
    requires OneChar(c)
    ensures Reads(c) == if c == BLOCK then [SPACE] else c
  {
    OneCharWellFormed(c);
    FoldChar(c, []);
    assert c + [] == c;
  }

  // ---- which texts come back ----

  /**
   * The texts that come back: read from the left, a space is followed by a text that comes back,
   * and a symbol holds no space, is not U+2581, and is followed by a text that comes back.
   */
  predicate Kept(s: bytes)
    decreases |s|
  {
    s == [] ||
    if s[0] == SPACE then Kept(s[1..])
    else SPACE !in s[..StepLen(s)] && s[..StepLen(s)] != BLOCK && Kept(s[StepLen(s)..])
  }

  /** What a text reads as after escaping. */
  function Returned(s: bytes): bytes { ReadAll(CutText(Escape(s))) }

  lemma CutStep(e: bytes, w: bytes, rest: bytes)
    requires e == w + rest && w != [] && StepLen(e) == |w|
    ensures ReadAll(CutText(e)) == Reads(w) + ReadAll(CutText(rest))
  {
    assert e[..|w|] == w && e[|w|..] == rest;
    ReadAllConcat([w], CutText(rest));
    ReadAllOne(w);
  }

  lemma SpaceReturned(s: bytes)
    requires s != [] && s[0] == SPACE
    ensures Returned(s) == [SPACE] + Returned(s[1..])
  {
    var rest := Escape(s[1..]);
    var e := BLOCK + rest;
    assert e == Escape(s) && e[0] == 0xE2 && e[1] == 0x96 && e[2] == 0x81;
    assert RunEnd(e, false, 1) >= 3;
    CutStep(e, BLOCK, rest);
    BlockReads();
  }

  lemma BlockReads()
    ensures Reads(BLOCK) == [SPACE]
  {
    CharReads(BLOCK);
  }

  /** A symbol without a space is cut off the escaped text as off the text itself. */
  lemma SymbolReturned(s: bytes)
    requires s != [] && s[0] != SPACE && SPACE !in s[..StepLen(s)]
    ensures Returned(s) == Reads(s[..StepLen(s)]) + Returned(s[StepLen(s)..])
  {
    var n := StepLen(s);
    var w, t := s[..n], s[n..];
    assert s == w + t;
    EscapeConcat(w, t);
    EscapeNoSpace(w);
    EscapedStep(s, n, w + Escape(t));
    CutStep(w + Escape(t), w, Escape(t));
  }

  lemma EscapedStep(s: bytes, n: nat, e: bytes)
    requires s != [] && s[0] != SPACE && n == StepLen(s) && e == s[..n] + Escape(s[n..])
    ensures StepLen(e) == n
  {
    assert e[0] == s[0];
    assert forall i | 1 <= i < n :: e[i] == s[i];
    if n < LeadLen(Gemma4, s[0]) {
      assert n < |s| ==> s[n] == LF;
      assert n < |s| ==> Escape(s[n..])[0] == LF;
      RunEndIs(e, false, 1, n);
    }
  }

  /** The escaped text up to and into the first space. */
  lemma EscapedPrefix(s: bytes, j: nat)
    requires j < |s| && s[j] == SPACE && forall i | 0 <= i < j :: s[i] != SPACE
    ensures |Escape(s)| > j && Escape(s)[j] == 0xE2 && forall i | 0 <= i < j :: Escape(s)[i] == s[i]
  {
    var a, t := s[..j], s[j..];
    assert s == a + t;
    EscapeConcat(a, t);
    EscapeNoSpace(a);
    assert Escape(t) == BLOCK + Escape(t[1..]);
  }

  /** A word whose first byte is followed by the first byte of U+2581 is broken. */
  lemma BrokenWord(e: bytes, j: nat)
    requires e != [] && 0 < j < StepLen(e) && e[j] == 0xE2
    ensures Reads(e[..StepLen(e)]) == e[..StepLen(e)]
  {
    var w := e[..StepLen(e)];
    if WellFormed(w) {
      SymbolForm(e);
      CharTails(w, j);
    }
  }

  lemma TakeDrop(e: bytes, n: nat)
    requires n <= |e|
    ensures e == e[..n] + e[n..]
  {}

  /** A symbol that reaches a space takes the first byte of the escaped space and keeps it. */
  lemma SwallowedSpace(s: bytes, j: nat)
    requires s != [] && 0 < j < StepLen(s) && s[j] == SPACE && forall i | 0 <= i < j :: s[i] != SPACE
    ensures Differs(Returned(s), s)
  {
    var e := Escape(s);
    EscapedPrefix(s, j);
    var n := StepLen(e);
    assert forall i | 0 <= i < j + 1 :: e[i] != LF;
    assert j < n;
    BrokenWord(e, j);
    TakeDrop(e, n);
    CutStep(e, e[..n], e[n..]);
    assert Returned(s)[j] == 0xE2;
  }

  lemma {:induction false} FirstSpace(s: bytes, n: nat) returns (j: nat)
    requires n <= |s| && SPACE in s[..n]
    ensures j < n && s[j] == SPACE && forall i | 0 <= i < j :: s[i] != SPACE
  {
    j := 0;
    while s[j] != SPACE
      invariant j < n && forall i | 0 <= i < j :: s[i] != SPACE
      decreases n - j
    {
      j := j + 1;
    }
  }

  lemma AfterSame(a: bytes, x: bytes, y: bytes, whole: bytes)
    requires a + y == whole
    ensures x == y ==> a + x == whole
    ensures Differs(x, y) ==> Differs(a + x, whole)
  {
    if Differs(x, y) {
      var j :| 0 <= j < |x| && j < |y| && x[j] != y[j];
      assert (a + x)[|a| + j] == x[j] && whole[|a| + j] == y[j];
    }
  }

  /** What is read is the text if it is kept, and otherwise differs from it at some place. */
  predicate Says(kept: bool, back: bytes, s: bytes) { (kept ==> back == s) && (!kept ==> Differs(back, s)) }

  predicate Decided(s: bytes) { Says(Kept(s), Returned(s), s) }

  lemma SpaceDecides(s: bytes)
    requires s != [] && s[0] == SPACE && Decided(s[1..])
    ensures Decided(s)
  {
    SpaceReturned(s);
    AfterSame([SPACE], Returned(s[1..]), s[1..], s);
  }

  /** What stands before the rest is the text's own symbol unless that is U+2581. */
  lemma SymbolSays(w: bytes, kept: bool, back: bytes, t: bytes, s: bytes)
    requires s == w + t && s != [] && s[0] != SPACE && Says(kept, back, t)
    ensures Says(w != BLOCK && kept, (if w == BLOCK then [SPACE] else w) + back, s)
  {
    if w == BLOCK { assert ([SPACE] + back)[0] == SPACE; } else { AfterSame(w, back, t, s); }
  }

  lemma KeptStep(s: bytes)
    requires s != [] && s[0] != SPACE && SPACE !in s[..StepLen(s)]
    ensures Kept(s) <==> s[..StepLen(s)] != BLOCK && Kept(s[StepLen(s)..])
  {}

  /** The text starts with the symbol w, which holds no space, and goes on with t. */
  predicate Starts(s: bytes, w: bytes, t: bytes) {
    s == w + t && s != [] && s[0] != SPACE && |w| == StepLen(s) && SPACE !in w
  }

  lemma StartOf(s: bytes)
    requires s != [] && s[0] != SPACE && SPACE !in s[..StepLen(s)]
    ensures Starts(s, s[..StepLen(s)], s[StepLen(s)..])
  {}

  lemma StartFacts(s: bytes, w: bytes, t: bytes)
    requires Starts(s, w, t)
    ensures Kept(s) <==> w != BLOCK && Kept(t)
    ensures Returned(s) == (if w == BLOCK then [SPACE] else w) + Returned(t)
  {
    assert s[..|w|] == w && s[|w|..] == t;
    KeptStep(s);
    SymbolText(s);
  }

  lemma SymbolDecides(s: bytes, w: bytes, t: bytes)
    requires Starts(s, w, t) && Decided(t)
    ensures Decided(s)
  {
    StartFacts(s, w, t);
    SymbolSays(w, Kept(t), Returned(t), t, s);
  }

  lemma SwallowDecides(s: bytes)
    requires s != [] && s[0] != SPACE && SPACE in s[..StepLen(s)]
    ensures Decided(s)
  {
    var j := FirstSpace(s, StepLen(s));
    SwallowedSpace(s, j);
  }

  lemma EmptyDecides()
    ensures Decided([])
  {}

  /** This decides every byte string. */
  lemma {:induction false} KeptOrDiffers(s: bytes)
    ensures Decided(s)
    decreases |s|
  {
    if s == [] {
      EmptyDecides();
    } else if s[0] == SPACE {
      KeptOrDiffers(s[1..]);
      SpaceDecides(s);
    } else if SPACE in s[..StepLen(s)] {
      SwallowDecides(s);
    } else {
      KeptOrDiffers(s[StepLen(s)..]);
      StartOf(s);
      SymbolDecides(s, s[..StepLen(s)], s[StepLen(s)..]);
    }
  }

  /** It reads as itself exactly when it is kept. */
  lemma KeptIff(s: bytes)
    ensures Returned(s) == s <==> Kept(s)
  {
    KeptOrDiffers(s);
  }

  lemma SymbolReads(s: bytes)
    requires s != []
    ensures Reads(s[..StepLen(s)]) == if s[..StepLen(s)] == BLOCK then [SPACE] else s[..StepLen(s)]
  {
    var w := s[..StepLen(s)];
    if w == BLOCK {
      BlockReads();
    } else if WellFormed(w) {
      SymbolForm(s);
      CharReads(w);
    }
  }

  lemma SymbolText(s: bytes)
    requires s != [] && s[0] != SPACE && SPACE !in s[..StepLen(s)]
    ensures Returned(s)
         == (if s[..StepLen(s)] == BLOCK then [SPACE] else s[..StepLen(s)]) + Returned(s[StepLen(s)..])
  {
    SymbolReturned(s);
    SymbolReads(s);
  }

  /** Of the well-formed texts exactly those without U+2581 are kept. */
  lemma KeptWellFormed(s: bytes)
    requires WellFormed(s)
    ensures Kept(s) <==> !HasBlock(s)
  {
    EscapeFolds(s);
    WholeTextReads(Escape(s));
    FoldLength(s);
    KeptIff(s);
  }
}
