/**
 * What the encoders promise of their ids (src/tokenizer/tokenizer.c, src/tokenizer/gemma4_bpe.c), as
 * relations between texts, lists and ids. Nothing here is computed by the encoders or by the functions
 * that specify them.
 */
module MergeLaw {
  import opened Common

  // ---- spelling ----

  /** The id is the first one of the list spelled that way. */
  predicate Names(tok: seq<bytes>, id: int, w: bytes) {
    0 <= id < |tok| && tok[id] == w && forall j | 0 <= j < id :: tok[j] != w
  }

  const DIGITS: bytes :=
    [0x30, 0x31, 0x32, 0x33, 0x34, 0x35, 0x36, 0x37, 0x38, 0x39, 0x41, 0x42, 0x43, 0x44, 0x45, 0x46]

  /** "<0x4A>" for 0x4A. */
  function HexName(b: byte): bytes { [0x3C, 0x30, 0x78, DIGITS[b / 16], DIGITS[b % 16], 0x3E] }

  /** A token gives its id, any other word one byte token per byte. */
  predicate IsWordIds(tok: seq<bytes>, w: bytes, ids: seq<int>) {
    if w in tok then |ids| == 1 && Names(tok, ids[0], w)
    else |ids| == |w| && forall j | 0 <= j < |w| :: Names(tok, ids[j], HexName(w[j]))
  }

  ghost predicate AreWordIds(tok: seq<bytes>, ws: seq<bytes>, ids: seq<int>) {
    exists parts: seq<seq<int>> :: PartsAreWordIds(tok, ws, parts) && ids == Flatten(parts)
  }

  predicate PartsAreWordIds(tok: seq<bytes>, ws: seq<bytes>, parts: seq<seq<int>>) {
    |parts| == |ws| && forall i | 0 <= i < |ws| :: IsWordIds(tok, ws[i], parts[i])
  }

  // ---- joins ----

  predicate Joins(ws: seq<bytes>, k: nat, ws': seq<bytes>) {
    k + 1 < |ws| && ws' == ws[..k] + [ws[k] + ws[k + 1]] + ws[k + 2..]
  }

  /** When a merge line joins two symbols. */
  type Line = (bytes, bytes, bytes) -> bool

  predicate JoinedBy(line: Line, lines: seq<bytes>, i: nat, ws: seq<bytes>, k: nat) {
    i < |lines| && k + 1 < |ws| && line(lines[i], ws[k], ws[k + 1])
  }

  /** Pair k is joined by the first line that joins any pair, and no pair before it is joined by that line. */
  ghost predicate IsNextByLine(line: Line, lines: seq<bytes>, ws: seq<bytes>, k: nat, i: nat) {
    && JoinedBy(line, lines, i, ws, k)
    && (forall j: nat, l: nat | j < i :: !JoinedBy(line, lines, j, ws, l))
    && (forall l: nat | l < k :: !JoinedBy(line, lines, i, ws, l))
  }

  /** Each list of the path comes from the one before by that join, and in the last no line joins a pair. */
  ghost predicate LineChain(line: Line, lines: seq<bytes>, path: seq<seq<bytes>>) {
    && path != []
    && (forall x | 0 <= x < |path| - 1 :: LineStep(line, lines, path[x], path[x + 1]))
    && NothingToJoin(line, lines, path[|path| - 1])
  }

  ghost predicate NothingToJoin(line: Line, lines: seq<bytes>, ws: seq<bytes>) {
    forall i: nat, k: nat :: !JoinedBy(line, lines, i, ws, k)
  }

  ghost predicate LineStep(line: Line, lines: seq<bytes>, ws: seq<bytes>, ws': seq<bytes>) {
    exists k: nat, i: nat :: IsNextByLine(line, lines, ws, k, i) && Joins(ws, k, ws')
  }

  /** Pair k spells that token. */
  predicate Spells(tok: seq<bytes>, ws: seq<bytes>, k: nat, id: nat) {
    k + 1 < |ws| && Names(tok, id, ws[k] + ws[k + 1])
  }

  /** Pair k spells a token of the highest score, the first such pair. */
  ghost predicate IsNextByScore(tok: seq<bytes>, scores: seq<real>, ws: seq<bytes>, k: nat, id: nat)
    requires |scores| == |tok|
  {
    && Spells(tok, ws, k, id)
    && forall l: nat, other: nat | Spells(tok, ws, l, other) ::
         scores[other] < scores[id] || (scores[other] == scores[id] && k <= l)
  }

  ghost predicate ScoreStep(tok: seq<bytes>, scores: seq<real>, ws: seq<bytes>, ws': seq<bytes>)
    requires |scores| == |tok|
  {
    exists k: nat, id: nat :: IsNextByScore(tok, scores, ws, k, id) && Joins(ws, k, ws')
  }

  /** The same for scores: in the last list no two neighbours spell a token. */
  ghost predicate ScoreChain(tok: seq<bytes>, scores: seq<real>, path: seq<seq<bytes>>)
    requires |scores| == |tok|
  {
    && path != []
    && (forall x | 0 <= x < |path| - 1 :: ScoreStep(tok, scores, path[x], path[x + 1]))
    && NoTokenToJoin(tok, path[|path| - 1])
  }

  predicate NoTokenToJoin(tok: seq<bytes>, ws: seq<bytes>) {
    forall k | 0 <= k < |ws| - 1 :: ws[k] + ws[k + 1] !in tok
  }

  // ---- cutting ----

  /** A list of symbols cut from a text, each as long as `claimed` says of its first byte, the last maybe shorter. */
  predicate CutBy(claimed: byte -> nat, s: bytes, ws: seq<bytes>) {
    Flatten(ws) == s && forall i | 0 <= i < |ws| :: ClaimedLength(claimed, ws[i], i + 1 == |ws|)
  }

  predicate ClaimedLength(claimed: byte -> nat, w: bytes, last: bool) {
    w != [] && (|w| == claimed(w[0]) || (last && |w| < claimed(w[0])))
  }

  function Spaced(b: byte): bytes { if b == 0x20 then [0xE2, 0x96, 0x81] else [b] }

  /** The text with U+2581 for every space. */
  function WithBlocks(s: bytes): bytes { Flatten(seq(|s|, i requires 0 <= i < |s| => Spaced(s[i]))) }

  predicate Newlines(run: bytes) { run != [] && forall i | 0 <= i < |run| :: run[i] == 0x0A }

  predicate NoNewlines(run: bytes) { run != [] && forall i | 0 <= i < |run| :: run[i] != 0x0A }

  /** The maximal runs of newlines and of other bytes, in order. */
  predicate AreRuns(e: bytes, runs: seq<bytes>) {
    && Flatten(runs) == e
    && (forall i | 0 <= i < |runs| :: Newlines(runs[i]) || NoNewlines(runs[i]))
    && (forall i | 0 <= i < |runs| - 1 :: Newlines(runs[i]) <==> NoNewlines(runs[i + 1]))
  }

  // ---- the joins determine the words ----

  lemma OneNextByLine(line: Line, lines: seq<bytes>, ws: seq<bytes>, k: nat, i: nat, k': nat, i': nat)
    requires IsNextByLine(line, lines, ws, k, i) && IsNextByLine(line, lines, ws, k', i')
    ensures k == k'
  {
    assert JoinedBy(line, lines, i, ws, k) && JoinedBy(line, lines, i', ws, k');
  }

  lemma OneLineStep(line: Line, lines: seq<bytes>, ws: seq<bytes>, a: seq<bytes>, b: seq<bytes>)
    requires LineStep(line, lines, ws, a) && LineStep(line, lines, ws, b)
    ensures a == b
  {
    var k: nat, i: nat :| IsNextByLine(line, lines, ws, k, i) && Joins(ws, k, a);
    var k': nat, i': nat :| IsNextByLine(line, lines, ws, k', i') && Joins(ws, k', b);
    OneNextByLine(line, lines, ws, k, i, k', i');
  }

  /** Two chains from one list end in the same words. */
  lemma {:induction false} LineChainEnds(line: Line, lines: seq<bytes>, p: seq<seq<bytes>>, q: seq<seq<bytes>>)
    requires LineChain(line, lines, p) && LineChain(line, lines, q) && p[0] == q[0]
    ensures p[|p| - 1] == q[|q| - 1]
    decreases |p|
  {
    if |p| > 1 && |q| > 1 {
      assert LineStep(line, lines, p[0], p[1]) && LineStep(line, lines, q[0], q[1]);
      OneLineStep(line, lines, p[0], p[1], q[1]);
      LineChainRest(line, lines, p);
      LineChainRest(line, lines, q);
      LineChainEnds(line, lines, p[1..], q[1..]);
    } else if |p| > 1 {
      StepsJoin(line, lines, p);
    } else if |q| > 1 {
      StepsJoin(line, lines, q);
    }
  }

  lemma LineChainRest(line: Line, lines: seq<bytes>, p: seq<seq<bytes>>)
    requires LineChain(line, lines, p) && |p| > 1
    ensures LineChain(line, lines, p[1..])
  {
    var r := p[1..];
    forall x | 0 <= x < |r| - 1 ensures LineStep(line, lines, r[x], r[x + 1]) {
      assert LineStep(line, lines, p[x + 1], p[x + 1 + 1]);
    }
  }

  /** A list from which a step leads has a pair to join. */
  lemma StepsJoin(line: Line, lines: seq<bytes>, p: seq<seq<bytes>>)
    requires LineChain(line, lines, p) && |p| > 1
    ensures exists i: nat, k: nat :: JoinedBy(line, lines, i, p[0], k)
  {
    assert LineStep(line, lines, p[0], p[1]);
    var k: nat, i: nat :| IsNextByLine(line, lines, p[0], k, i) && Joins(p[0], k, p[1]);
    assert JoinedBy(line, lines, i, p[0], k);
  }

  lemma OneNextByScore(tok: seq<bytes>, scores: seq<real>, ws: seq<bytes>, k: nat, id: nat, k': nat, id': nat)
    requires |scores| == |tok|
    requires IsNextByScore(tok, scores, ws, k, id) && IsNextByScore(tok, scores, ws, k', id')
    ensures k == k'
  {
    assert Spells(tok, ws, k, id) && Spells(tok, ws, k', id');
  }

  lemma OneScoreStep(tok: seq<bytes>, scores: seq<real>, ws: seq<bytes>, a: seq<bytes>, b: seq<bytes>)
    requires |scores| == |tok| && ScoreStep(tok, scores, ws, a) && ScoreStep(tok, scores, ws, b)
    ensures a == b
  {
    var k: nat, id: nat :| IsNextByScore(tok, scores, ws, k, id) && Joins(ws, k, a);
    var k': nat, id': nat :| IsNextByScore(tok, scores, ws, k', id') && Joins(ws, k', b);
    OneNextByScore(tok, scores, ws, k, id, k', id');
  }

  lemma {:induction false} ScoreChainEnds(tok: seq<bytes>, scores: seq<real>, p: seq<seq<bytes>>, q: seq<seq<bytes>>)
    requires |scores| == |tok| && ScoreChain(tok, scores, p) && ScoreChain(tok, scores, q) && p[0] == q[0]
    ensures p[|p| - 1] == q[|q| - 1]
    decreases |p|
  {
    if |p| > 1 && |q| > 1 {
      assert ScoreStep(tok, scores, p[0], p[1]) && ScoreStep(tok, scores, q[0], q[1]);
      OneScoreStep(tok, scores, p[0], p[1], q[1]);
      ScoreChainRest(tok, scores, p);
      ScoreChainRest(tok, scores, q);
      ScoreChainEnds(tok, scores, p[1..], q[1..]);
    } else if |p| > 1 {
      ScoreStepsJoin(tok, scores, p);
    } else if |q| > 1 {
      ScoreStepsJoin(tok, scores, q);
    }
  }

  lemma ScoreChainRest(tok: seq<bytes>, scores: seq<real>, p: seq<seq<bytes>>)
    requires |scores| == |tok| && ScoreChain(tok, scores, p) && |p| > 1
    ensures ScoreChain(tok, scores, p[1..])
  {
    var r := p[1..];
    forall x | 0 <= x < |r| - 1 ensures ScoreStep(tok, scores, r[x], r[x + 1]) {
      assert ScoreStep(tok, scores, p[x + 1], p[x + 1 + 1]);
    }
  }

  lemma ScoreStepsJoin(tok: seq<bytes>, scores: seq<real>, p: seq<seq<bytes>>)
    requires |scores| == |tok| && ScoreChain(tok, scores, p) && |p| > 1
    ensures exists k: nat :: k + 1 < |p[0]| && p[0][k] + p[0][k + 1] in tok
  {
    assert ScoreStep(tok, scores, p[0], p[1]);
    var k: nat, id: nat :| IsNextByScore(tok, scores, p[0], k, id) && Joins(p[0], k, p[1]);
    assert tok[id] == p[0][k] + p[0][k + 1];
  }
}
