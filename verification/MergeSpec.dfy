/**
 * What all three merge loops compute: repeatedly join the best adjacent pair of symbols,
 * the leftmost one on ties, until no adjacent pair may be joined.
 */
module MergeSpec {
  import opened Common

  /** The rank of joining two symbols (lowest first); None when they may not be joined. */
  type Rank = (bytes, bytes) -> Option<real>

  function PairRank(ws: seq<bytes>, rank: Rank, j: nat): Option<real>
    requires j + 1 < |ws|
  {
    rank(ws[j], ws[j + 1])
  }

  /** Pair `k` may be joined, and pair `j` neither ranks lower nor ties further left. */
  predicate Beats(ws: seq<bytes>, rank: Rank, k: nat, j: nat)
    requires k + 1 < |ws| && j + 1 < |ws|
  {
    var a, b := PairRank(ws, rank, k), PairRank(ws, rank, j);
    a.Some? && (b.None? || a.value < b.value || (a.value == b.value && k <= j))
  }

  ghost predicate IsBest(ws: seq<bytes>, rank: Rank, k: nat) {
    k + 1 < |ws| && forall j | 0 <= j < |ws| - 1 :: Beats(ws, rank, k, j)
  }

  lemma BestIsUnique(ws: seq<bytes>, rank: Rank, k: nat, k': nat)
    requires IsBest(ws, rank, k) && IsBest(ws, rank, k')
    ensures k == k'
  {
    assert Beats(ws, rank, k, k') && Beats(ws, rank, k', k);
  }

  /** Beating the best so far means beating everything it beats. */
  lemma NewBest(ws: seq<bytes>, rank: Rank, best: nat, k: nat)
    requires best < k && k + 1 < |ws|
    requires PairRank(ws, rank, k).Some? && !Beats(ws, rank, best, k)
    requires forall j | 0 <= j < k :: Beats(ws, rank, best, j)
    ensures forall j | 0 <= j < k + 1 :: Beats(ws, rank, k, j)
  {
    forall j | 0 <= j < k + 1 ensures Beats(ws, rank, k, j) {
      assert Beats(ws, rank, best, best);
      assert j < k ==> Beats(ws, rank, best, j);
    }
  }

  /** A pair without rank is beaten by whatever is ranked. */
  lemma StillBest(ws: seq<bytes>, rank: Rank, best: nat, k: nat)
    requires best < k && k + 1 < |ws| && Beats(ws, rank, best, best) && PairRank(ws, rank, k).None?
    ensures Beats(ws, rank, best, k)
  {}

  /** Scan for the best of the first `n` pairs, keeping the first of equals. */
  function BestUpTo(ws: seq<bytes>, rank: Rank, n: nat): (best: Option<nat>)
    requires n < |ws| || n == 0
    ensures best.Some? ==> best.value < n
    ensures best.Some? ==> forall j | 0 <= j < n :: Beats(ws, rank, best.value, j)
    ensures best.None? ==> forall j | 0 <= j < n :: PairRank(ws, rank, j).None?
  {
    if n == 0 then None else
    var best := BestUpTo(ws, rank, n - 1);
    if best.Some? && Beats(ws, rank, best.value, n - 1) then best
    else if PairRank(ws, rank, n - 1).Some? then
      (if best.Some? then NewBest(ws, rank, best.value, n - 1); Some(n - 1) else Some(n - 1))
    else
      (if best.Some? then StillBest(ws, rank, best.value, n - 1); best else best)
  }

  function Best(ws: seq<bytes>, rank: Rank): (best: Option<nat>)
    ensures best.Some? ==> IsBest(ws, rank, best.value)
    ensures best.None? ==> forall j | 0 <= j < |ws| - 1 :: PairRank(ws, rank, j).None?
  {
    BestUpTo(ws, rank, if |ws| == 0 then 0 else |ws| - 1)
  }

  /** Join symbols `k` and `k + 1`. */
  function MergeAt(ws: seq<bytes>, k: nat): (r: seq<bytes>)
    requires k + 1 < |ws|
    ensures |r| == |ws| - 1
    ensures forall i | 0 <= i < |r| ::
              r[i] == if i < k then ws[i] else if i == k then ws[k] + ws[k + 1] else ws[i + 1]
  {
    seq(|ws| - 1, i requires 0 <= i < |ws| - 1 =>
      if i < k then ws[i] else if i == k then ws[k] + ws[k + 1] else ws[i + 1])
  }

  /** The specification of the merge loops. */
  function Merged(ws: seq<bytes>, rank: Rank): seq<bytes>
    decreases |ws|
  {
    match Best(ws, rank)
    case None => ws
    case Some(k) => Merged(MergeAt(ws, k), rank)
  }

  lemma MergedStep(ws: seq<bytes>, rank: Rank, k: nat)
    requires IsBest(ws, rank, k)
    ensures Merged(ws, rank) == Merged(MergeAt(ws, k), rank)
  {
    assert Beats(ws, rank, k, k);
    BestIsUnique(ws, rank, k, Best(ws, rank).value);
  }

  lemma MergedDone(ws: seq<bytes>, rank: Rank)
    requires forall j | 0 <= j < |ws| - 1 :: PairRank(ws, rank, j).None?
    ensures Merged(ws, rank) == ws
  {
    var best := Best(ws, rank);
    assert best.Some? ==> PairRank(ws, rank, best.value).Some? by {
      assert best.Some? ==> Beats(ws, rank, best.value, best.value);
    }
  }

  lemma SplitAround(ws: seq<bytes>, k: nat)
    requires k + 1 < |ws|
    ensures ws == ws[..k] + [ws[k], ws[k + 1]] + ws[k + 2..]
    ensures MergeAt(ws, k) == ws[..k] + [ws[k] + ws[k + 1]] + ws[k + 2..]
  {}

  lemma MergeAtText(ws: seq<bytes>, k: nat)
    requires k + 1 < |ws|
    ensures Flatten(MergeAt(ws, k)) == Flatten(ws)
  {
    SplitAround(ws, k);
    FlattenThree(ws[..k], [ws[k], ws[k + 1]], ws[k + 2..]);
    FlattenThree(ws[..k], [ws[k] + ws[k + 1]], ws[k + 2..]);
    FlattenPair(ws[k], ws[k + 1]);
    FlattenOne(ws[k] + ws[k + 1]);
  }

  lemma MergeAtMembers(ws: seq<bytes>, k: nat, w: bytes)
    requires k + 1 < |ws| && w in MergeAt(ws, k)
    ensures w in ws || w == ws[k] + ws[k + 1]
  {}

  /** Merging loses and invents no byte. */
  lemma {:induction false} MergedText(ws: seq<bytes>, rank: Rank)
    ensures Flatten(Merged(ws, rank)) == Flatten(ws)
    decreases |ws|
  {
    match Best(ws, rank)
    case None =>
    case Some(k) =>
      MergeAtText(ws, k);
      MergedText(MergeAt(ws, k), rank);
  }

  /** A property of the initial symbols that joining preserves holds of every final symbol. */
  lemma {:induction false} MergedInduction(ws: seq<bytes>, rank: Rank, P: bytes -> bool)
    requires forall w | w in ws :: P(w)
    requires forall a: bytes, b: bytes {:trigger rank(a, b)} | P(a) && P(b) && rank(a, b).Some? :: P(a + b)
    ensures forall w | w in Merged(ws, rank) :: P(w)
    decreases |ws|
  {
    match Best(ws, rank)
    case None =>
    case Some(k) =>
      assert Beats(ws, rank, k, k) && P(ws[k]) && P(ws[k + 1]);
      forall w | w in MergeAt(ws, k) ensures P(w) {
        MergeAtMembers(ws, k, w);
      }
      MergedInduction(MergeAt(ws, k), rank, P);
  }

  /** The result is final: no two neighbours may be joined any more. */
  lemma {:induction false} MergedIsFinal(ws: seq<bytes>, rank: Rank)
    ensures Best(Merged(ws, rank), rank).None?
    decreases |ws|
  {
    match Best(ws, rank)
    case None =>
    case Some(k) => MergedIsFinal(MergeAt(ws, k), rank);
  }
}
