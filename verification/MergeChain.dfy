/** Merging by the specification of MergeSpec is a chain of joins in the sense of MergeLaw. */
module MergeChain {
  import opened Common
  import opened Vocab
  import opened MergeSpec
  import opened MergeLaw

  // ---- from the specification of the merge loops to chains of joins ----

  /** Each list comes from the one before by joining the best pair, and the last has no ranked pair. */
  ghost predicate BestPath(rank: Rank, path: seq<seq<bytes>>) {
    && path != []
    && (forall x | 0 <= x < |path| - 1 :: BestStep(rank, path[x], path[x + 1]))
    && Unranked(rank, path[|path| - 1])
  }

  ghost predicate BestStep(rank: Rank, ws: seq<bytes>, ws': seq<bytes>) {
    exists k: nat :: IsBest(ws, rank, k) && Joins(ws, k, ws')
  }

  predicate Unranked(rank: Rank, ws: seq<bytes>) { forall j | 0 <= j < |ws| - 1 :: PairRank(ws, rank, j).None? }

  lemma MergeAtJoins(ws: seq<bytes>, k: nat)
    requires k + 1 < |ws|
    ensures Joins(ws, k, MergeAt(ws, k))
  {}

  lemma PathPrepend(rank: Rank, ws: seq<bytes>, path: seq<seq<bytes>>)
    requires BestPath(rank, path) && BestStep(rank, ws, path[0])
    ensures BestPath(rank, [ws] + path)
  {
    var p := [ws] + path;
    forall x | 0 <= x < |p| - 1 ensures BestStep(rank, p[x], p[x + 1]) {
      if x > 0 { assert BestStep(rank, path[x - 1], path[x - 1 + 1]); }
    }
  }

  lemma {:induction false} MergedPath(ws: seq<bytes>, rank: Rank) returns (path: seq<seq<bytes>>)
    ensures BestPath(rank, path) && path[0] == ws && path[|path| - 1] == Merged(ws, rank)
    decreases |ws|
  {
    match Best(ws, rank)
    case None => path := [ws];
    case Some(k) =>
      MergeAtJoins(ws, k);
      var rest := MergedPath(MergeAt(ws, k), rank);
      assert BestStep(rank, ws, rest[0]);
      PathPrepend(rank, ws, rest);
      path := [ws] + rest;
  }

  // ---- joins by merge lines ----

  /** The rank of a pair is the number of the first line that joins it. */
  ghost predicate RanksByLine(line: Line, lines: seq<bytes>, rank: Rank) {
    forall a: bytes, b: bytes {:trigger rank(a, b)} :: RanksPair(line, lines, rank(a, b), a, b)
  }

  ghost predicate RanksPair(line: Line, lines: seq<bytes>, r: Option<real>, a: bytes, b: bytes) {
    match r
    case None => forall i | 0 <= i < |lines| :: !line(lines[i], a, b)
    case Some(v) => exists i: nat :: v == AsRank(i) && FirstJoining(line, lines, i, a, b)
  }

  function AsRank(i: nat): real { i as real }

  predicate FirstJoining(line: Line, lines: seq<bytes>, i: nat, a: bytes, b: bytes) {
    i < |lines| && line(lines[i], a, b) && forall j | 0 <= j < i :: !line(lines[j], a, b)
  }

  /** A pair that a line joins has a rank of that line or one before. */
  lemma LineBounds(line: Line, lines: seq<bytes>, rank: Rank, ws: seq<bytes>, j: nat, l: nat)
    requires RanksByLine(line, lines, rank) && JoinedBy(line, lines, j, ws, l)
    ensures PairRank(ws, rank, l).Some? && PairRank(ws, rank, l).value <= j as real
  {
    assert RanksPair(line, lines, rank(ws[l], ws[l + 1]), ws[l], ws[l + 1]);
  }

  /** The line that joins the best pair comes no later than one that joins another, and finds it no further right. */
  lemma NoLineBefore(line: Line, lines: seq<bytes>, rank: Rank, ws: seq<bytes>, k: nat, i: nat, j: nat, l: nat)
    requires RanksByLine(line, lines, rank) && IsBest(ws, rank, k) && PairRank(ws, rank, k) == Some(AsRank(i))
    requires JoinedBy(line, lines, j, ws, l)
    ensures i <= j && (i == j ==> k <= l)
  {
    LineBounds(line, lines, rank, ws, j, l);
    assert Beats(ws, rank, k, l);
  }

  lemma BestIsFirstLine(line: Line, lines: seq<bytes>, rank: Rank, ws: seq<bytes>, k: nat) returns (i: nat)
    requires RanksByLine(line, lines, rank) && IsBest(ws, rank, k)
    ensures IsNextByLine(line, lines, ws, k, i)
  {
    assert Beats(ws, rank, k, k);
    assert RanksPair(line, lines, rank(ws[k], ws[k + 1]), ws[k], ws[k + 1]);
    i :| PairRank(ws, rank, k).value == AsRank(i) && FirstJoining(line, lines, i, ws[k], ws[k + 1]);
    forall j: nat, l: nat ensures JoinedBy(line, lines, j, ws, l) ==> i <= j && (i == j ==> k <= l) {
      if JoinedBy(line, lines, j, ws, l) { NoLineBefore(line, lines, rank, ws, k, i, j, l); }
    }
  }

  lemma BestStepByLine(line: Line, lines: seq<bytes>, rank: Rank, ws: seq<bytes>, ws': seq<bytes>)
    requires RanksByLine(line, lines, rank) && BestStep(rank, ws, ws')
    ensures LineStep(line, lines, ws, ws')
  {
    var k: nat :| IsBest(ws, rank, k) && Joins(ws, k, ws');
    var i := BestIsFirstLine(line, lines, rank, ws, k);
  }

  lemma UnrankedByLine(line: Line, lines: seq<bytes>, rank: Rank, ws: seq<bytes>)
    requires RanksByLine(line, lines, rank) && Unranked(rank, ws)
    ensures NothingToJoin(line, lines, ws)
  {
    forall i: nat, k: nat ensures !JoinedBy(line, lines, i, ws, k) {
      if JoinedBy(line, lines, i, ws, k) { LineBounds(line, lines, rank, ws, i, k); }
    }
  }

  /** Merging by such a rank is a chain of joins by lines. */
  lemma MergedByLine(line: Line, lines: seq<bytes>, rank: Rank, ws: seq<bytes>) returns (path: seq<seq<bytes>>)
    requires RanksByLine(line, lines, rank)
    ensures LineChain(line, lines, path) && path[0] == ws && path[|path| - 1] == Merged(ws, rank)
  {
    path := MergedPath(ws, rank);
    forall x | 0 <= x < |path| - 1 ensures LineStep(line, lines, path[x], path[x + 1]) {
      assert BestStep(rank, path[x], path[x + 1]);
      BestStepByLine(line, lines, rank, path[x], path[x + 1]);
    }
    UnrankedByLine(line, lines, rank, path[|path| - 1]);
  }

  lemma LookupNames(tok: seq<bytes>, w: bytes)
    ensures Lookup(tok, w) >= 0 <==> w in tok
    ensures w in tok ==> Names(tok, Lookup(tok, w), w)
  {}
}
