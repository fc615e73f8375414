/**
 * The merge loop of spm_fragment (src/tokenizer/tokenizer.c): candidates are scored by the
 * vocabulary entry they spell and recognised as outdated by comparing sizes only.
 */
module SpmMerge {
  import opened Common
  import opened OpenTable
  import opened Vocab
  import opened MergeSpec
  import opened Symbols
  import opened BinaryHeap

  type SpmSym = Sym<()>

  /** spm_bigram. */
  datatype Bigram = Bigram(left: nat, right: nat, score: real, size: nat)

  /** spm_hi: higher score first, smaller left index on ties. */
  predicate Before(a: Bigram, b: Bigram) {
    a.score > b.score || (a.score == b.score && a.left < b.left)
  }

  /** Joining by spelling: the joined text must be a vocabulary entry, the best score first. */
  function ScoreRank(tok: seq<bytes>, scores: seq<real>): Rank
    requires |scores| == |tok|
  {
    (a: bytes, b: bytes) => var id := Lookup(tok, a + b); if id < 0 then None else Some(-scores[id])
  }

  function Slice(buf: bytes, off: nat, n: nat): bytes {
    if off + n <= |buf| then buf[off..off + n] else []
  }

  /** SPM_TRY: what is queued for two neighbouring records. */
  function Candidate(tok: seq<bytes>, scores: seq<real>, buf: bytes, sym: seq<SpmSym>, l: nat, r: nat): Option<Bigram>
    requires |scores| == |tok| && l < |sym| && r < |sym|
  {
    var size := sym[l].n + sym[r].n;
    var id := Lookup(tok, Slice(buf, sym[l].off, size));
    if id < 0 then None else Some(Bigram(l, r, scores[id], size))
  }

  ghost predicate Covered(tok: seq<bytes>, scores: seq<real>, buf: bytes, sym: seq<SpmSym>, live: seq<nat>,
                          queue: multiset<Bigram>, i: int)
    requires |scores| == |tok| && Ascending(live, |sym|) && 0 <= i < |live| - 1
  {
    var c := Candidate(tok, scores, buf, sym, live[i], live[i + 1]);
    c.Some? ==> c.value in queue
  }

  /** A queued candidate scores the text of its recorded size that starts at its left record. */
  ghost predicate Sound(tok: seq<bytes>, scores: seq<real>, buf: bytes, sym: seq<SpmSym>, live: seq<nat>, b: Bigram)
    requires |scores| == |tok|
  {
    && b.left < b.right < |sym|
    && (forall x | b.left < x < b.right :: x !in live)
    && var id := Lookup(tok, Slice(buf, sym[b.left].off, b.size));
    id >= 0 && b.score == scores[id]
  }

  ghost predicate AllSound(tok: seq<bytes>, scores: seq<real>, buf: bytes, sym: seq<SpmSym>, live: seq<nat>,
                           queue: multiset<Bigram>)
    requires |scores| == |tok|
  {
    forall b | b in queue :: Sound(tok, scores, buf, sym, live, b)
  }

  ghost predicate Inv(tok: seq<bytes>, scores: seq<real>, buf: bytes, sym: seq<SpmSym>, live: seq<nat>,
                      queue: multiset<Bigram>)
    requires |scores| == |tok|
  {
    && Linked(sym, live, |buf|)
    && AllSound(tok, scores, buf, sym, live, queue)
    && (forall i | 0 <= i < |live| - 1 :: Covered(tok, scores, buf, sym, live, queue, i))
  }

  /** The test of the loop: both sides live, and together still of the size recorded. */
  predicate Fresh(sym: seq<SpmSym>, b: Bigram)
    requires b.left < |sym| && b.right < |sym|
  {
    sym[b.left].n != 0 && sym[b.right].n != 0 && sym[b.left].n + sym[b.right].n == b.size
  }

  lemma RankOfText(tok: seq<bytes>, scores: seq<real>, ws: seq<bytes>, i: nat, t: bytes)
    requires |scores| == |tok| && i + 1 < |ws| && ws[i] + ws[i + 1] == t
    ensures PairRank(ws, ScoreRank(tok, scores), i)
            == if Lookup(tok, t) < 0 then None else Some(-scores[Lookup(tok, t)])
  {}

  lemma PairText(buf: bytes, sym: seq<SpmSym>, live: seq<nat>, i: nat)
    requires Linked(sym, live, |buf|) && i + 1 < |live|
    ensures var ws, l := Words(buf, sym, live), sym[live[i]];
            ws[i] + ws[i + 1] == Slice(buf, l.off, l.n + sym[live[i + 1]].n)
  {
    JoinSpans(buf, sym, live, i);
  }

  lemma RankOfPair(tok: seq<bytes>, scores: seq<real>, buf: bytes, sym: seq<SpmSym>, live: seq<nat>, i: nat)
    requires |scores| == |tok| && Linked(sym, live, |buf|) && i + 1 < |live|
    ensures PairRank(Words(buf, sym, live), ScoreRank(tok, scores), i) ==
            match Candidate(tok, scores, buf, sym, live[i], live[i + 1])
            case None => None
            case Some(c) => Some(-c.score)
  {
    PairText(buf, sym, live, i);
    RankOfSlice(tok, scores, buf, sym, live[i], live[i + 1], Words(buf, sym, live), i);
  }

  lemma RankOfSlice(tok: seq<bytes>, scores: seq<real>, buf: bytes, sym: seq<SpmSym>, l: nat, r: nat,
                    ws: seq<bytes>, i: nat)
    requires |scores| == |tok| && l < |sym| && r < |sym| && i + 1 < |ws|
    requires ws[i] + ws[i + 1] == Slice(buf, sym[l].off, sym[l].n + sym[r].n)
    ensures PairRank(ws, ScoreRank(tok, scores), i) ==
            match Candidate(tok, scores, buf, sym, l, r)
            case None => None
            case Some(c) => Some(-c.score)
  {
    var t := ws[i] + ws[i + 1];
    RankOfText(tok, scores, ws, i, t);
    CandidateScore(tok, scores, buf, sym, l, r, t);
  }

  lemma CandidateScore(tok: seq<bytes>, scores: seq<real>, buf: bytes, sym: seq<SpmSym>, l: nat, r: nat, t: bytes)
    requires |scores| == |tok| && l < |sym| && r < |sym| && t == Slice(buf, sym[l].off, sym[l].n + sym[r].n)
    ensures match Candidate(tok, scores, buf, sym, l, r)
            case None => Lookup(tok, t) < 0
            case Some(c) => Lookup(tok, t) >= 0 && c.score == scores[Lookup(tok, t)]
  {}

  /** Equal sizes alone make the candidate current: live symbols are contiguous and start where they did. */
  lemma FreshIsCandidate(tok: seq<bytes>, scores: seq<real>, buf: bytes, sym: seq<SpmSym>, live: seq<nat>, b: Bigram)
    requires |scores| == |tok| && Sound(tok, scores, buf, sym, live, b) && Fresh(sym, b)
    ensures Candidate(tok, scores, buf, sym, b.left, b.right) == Some(b)
  {}

  lemma FreshIsBest(tok: seq<bytes>, scores: seq<real>, buf: bytes, sym: seq<SpmSym>, live: seq<nat>,
                    queue: multiset<Bigram>, b: Bigram, k: nat)
    requires |scores| == |tok| && Inv(tok, scores, buf, sym, live, queue)
    requires b in queue && (forall x | x in queue :: !Before(x, b))
    requires k + 1 < |live| && live[k] == b.left && live[k + 1] == b.right && Fresh(sym, b)
    ensures IsBest(Words(buf, sym, live), ScoreRank(tok, scores), k)
  {
    var ws, rank := Words(buf, sym, live), ScoreRank(tok, scores);
    FreshIsCandidate(tok, scores, buf, sym, live, b);
    RankOfPair(tok, scores, buf, sym, live, k);
    forall j | 0 <= j < |ws| - 1 ensures Beats(ws, rank, k, j) {
      RankOfPair(tok, scores, buf, sym, live, j);
      assert Covered(tok, scores, buf, sym, live, queue, j);
      var c := Candidate(tok, scores, buf, sym, live[j], live[j + 1]);
      if c.Some? {
        assert !Before(c.value, b);
        assert j < k ==> live[j] < live[k];
      }
    }
  }

  lemma DropStale(tok: seq<bytes>, scores: seq<real>, buf: bytes, sym: seq<SpmSym>, live: seq<nat>,
                  queue: multiset<Bigram>, b: Bigram)
    requires |scores| == |tok| && Inv(tok, scores, buf, sym, live, queue) && b in queue
    requires b.left < |sym| && b.right < |sym| && !Fresh(sym, b)
    ensures Inv(tok, scores, buf, sym, live, queue - multiset{b})
  {
    forall i | 0 <= i < |live| - 1 ensures Covered(tok, scores, buf, sym, live, queue - multiset{b}, i) {
      assert Covered(tok, scores, buf, sym, live, queue, i);
      assert LinkAt(sym, live, |buf|, i) && LinkAt(sym, live, |buf|, i + 1);
    }
  }

  lemma MergeCovered(tok: seq<bytes>, scores: seq<real>, buf: bytes, sym: seq<SpmSym>, live: seq<nat>,
                     queue: multiset<Bigram>, b: Bigram, k: nat, i: nat)
    requires |scores| == |tok| && Linked(sym, live, |buf|)
    requires k + 1 < |live| && live[k] == b.left && live[k + 1] == b.right
    requires sym[live[k + 1]].next < |sym| && Ascending(Without(live, k + 1), |sym|)
    requires i + 2 < |live| && i != k && i + 1 != k
    requires Covered(tok, scores, buf, sym, live, queue, if i < k + 1 then i else i + 1)
    ensures Covered(tok, scores, buf, Absorb(sym, live[k], live[k + 1], (), ()), Without(live, k + 1),
                    queue - multiset{b}, i)
  {
    var i0 := if i < k + 1 then i else i + 1;
    AbsorbKeeps(sym, live, |buf|, k, (), (), i0);
    AbsorbKeeps(sym, live, |buf|, k, (), (), i0 + 1);
    WithoutAt(live, k, i);
    SameCovered(tok, scores, buf, sym, live, Absorb(sym, live[k], live[k + 1], (), ()), Without(live, k + 1),
                queue, b, i0, i);
  }

  /** A pair of the same records and widths has the same candidate. */
  lemma SameCovered(tok: seq<bytes>, scores: seq<real>, buf: bytes, sym: seq<SpmSym>, live: seq<nat>,
                    sym': seq<SpmSym>, live': seq<nat>, queue: multiset<Bigram>, b: Bigram, i0: nat, i: nat)
    requires |scores| == |tok| && Ascending(live, |sym|) && Ascending(live', |sym'|)
    requires i0 + 1 < |live| && i + 1 < |live'|
    requires live'[i] == live[i0] && live'[i + 1] == live[i0 + 1] && live[i0] != b.left
    requires sym'[live'[i]].n == sym[live[i0]].n && sym'[live'[i]].off == sym[live[i0]].off
    requires sym'[live'[i + 1]].n == sym[live[i0 + 1]].n && Covered(tok, scores, buf, sym, live, queue, i0)
    ensures Covered(tok, scores, buf, sym', live', queue - multiset{b}, i)
  {}

  lemma MergeSound(tok: seq<bytes>, scores: seq<real>, buf: bytes, sym: seq<SpmSym>, sym': seq<SpmSym>,
                   live: seq<nat>, queue: multiset<Bigram>, b: Bigram, k: nat)
    requires |scores| == |tok| && AllSound(tok, scores, buf, sym, live, queue)
    requires k < |live| && Ascending(live, |sym|) && |sym'| == |sym|
    requires forall x | 0 <= x < |sym| :: sym'[x].off == sym[x].off
    ensures AllSound(tok, scores, buf, sym', Without(live, k), queue - multiset{b})
  {
    WithoutMembers(live, k, |sym|);
    forall c | c in queue - multiset{b} ensures Sound(tok, scores, buf, sym', Without(live, k), c) {
      assert Sound(tok, scores, buf, sym, live, c);
    }
  }

  lemma PushSound(tok: seq<bytes>, scores: seq<real>, buf: bytes, sym: seq<SpmSym>, live: seq<nat>,
                  queue: multiset<Bigram>, i: nat)
    requires |scores| == |tok| && Ascending(live, |sym|) && i + 1 < |live|
    requires AllSound(tok, scores, buf, sym, live, queue)
    ensures AllSound(tok, scores, buf, sym, live, queue + Queued(tok, scores, buf, sym, live[i], live[i + 1]))
  {
    PairSound(tok, scores, buf, sym, live, i);
    SoundPlus(tok, scores, buf, sym, live, queue, Queued(tok, scores, buf, sym, live[i], live[i + 1]));
  }

  lemma PairSound(tok: seq<bytes>, scores: seq<real>, buf: bytes, sym: seq<SpmSym>, live: seq<nat>, i: nat)
    requires |scores| == |tok| && Ascending(live, |sym|) && i + 1 < |live|
    ensures AllSound(tok, scores, buf, sym, live, Queued(tok, scores, buf, sym, live[i], live[i + 1]))
  {}

  lemma SoundPlus(tok: seq<bytes>, scores: seq<real>, buf: bytes, sym: seq<SpmSym>, live: seq<nat>,
                  p: multiset<Bigram>, q: multiset<Bigram>)
    requires |scores| == |tok|
    requires AllSound(tok, scores, buf, sym, live, p) && AllSound(tok, scores, buf, sym, live, q)
    ensures AllSound(tok, scores, buf, sym, live, p + q)
  {}

  lemma CoveredMore(tok: seq<bytes>, scores: seq<real>, buf: bytes, sym: seq<SpmSym>, live: seq<nat>,
                    queue: multiset<Bigram>, extra: multiset<Bigram>, i: nat)
    requires |scores| == |tok| && Ascending(live, |sym|) && i + 1 < |live|
    requires Covered(tok, scores, buf, sym, live, queue, i)
    ensures Covered(tok, scores, buf, sym, live, queue + extra, i)
  {}

  lemma CoveredNow(tok: seq<bytes>, scores: seq<real>, buf: bytes, sym: seq<SpmSym>, live: seq<nat>,
                   queue: multiset<Bigram>, i: nat)
    requires |scores| == |tok| && Ascending(live, |sym|) && i + 1 < |live|
    ensures Covered(tok, scores, buf, sym, live, queue + Queued(tok, scores, buf, sym, live[i], live[i + 1]), i)
  {}

  function Queued(tok: seq<bytes>, scores: seq<real>, buf: bytes, sym: seq<SpmSym>, l: int, r: int): multiset<Bigram>
    requires |scores| == |tok| && l < |sym| && r < |sym|
  {
    if l < 0 || r < 0 then multiset{} else
    match Candidate(tok, scores, buf, sym, l, r)
    case None => multiset{}
    case Some(c) => multiset{c}
  }

  /** The queue after merging for candidate `b` and re-queueing the merged record's neighbours. */
  function Requeued(tok: seq<bytes>, scores: seq<real>, buf: bytes, sym': seq<SpmSym>, l: nat,
                    queue: multiset<Bigram>, b: Bigram): multiset<Bigram>
    requires |scores| == |tok| && l < |sym'| && sym'[l].prev < |sym'| && sym'[l].next < |sym'|
  {
    queue - multiset{b} + Queued(tok, scores, buf, sym', sym'[l].prev, l)
                        + Queued(tok, scores, buf, sym', l, sym'[l].next)
  }

  lemma RequeuedSound(tok: seq<bytes>, scores: seq<real>, buf: bytes, sym': seq<SpmSym>, live': seq<nat>, k: nat,
                      queue: multiset<Bigram>, b: Bigram)
    requires |scores| == |tok| && Linked(sym', live', |buf|) && k < |live'|
    requires AllSound(tok, scores, buf, sym', live', queue - multiset{b})
    ensures sym'[live'[k]].prev < |sym'| && sym'[live'[k]].next < |sym'|
    ensures AllSound(tok, scores, buf, sym', live', Requeued(tok, scores, buf, sym', live'[k], queue, b))
  {
    LinksAre(sym', live', |buf|, k);
    var rest, l := queue - multiset{b}, live'[k];
    var p, q := Queued(tok, scores, buf, sym', sym'[l].prev, l), Queued(tok, scores, buf, sym', l, sym'[l].next);
    SidesSound(tok, scores, buf, sym', live', k);
    SoundPlus(tok, scores, buf, sym', live', rest, p);
    SoundPlus(tok, scores, buf, sym', live', rest + p, q);
  }

  lemma SidesSound(tok: seq<bytes>, scores: seq<real>, buf: bytes, sym: seq<SpmSym>, live: seq<nat>, k: nat)
    requires |scores| == |tok| && Linked(sym, live, |buf|) && k < |live|
    requires sym[live[k]].prev < |sym| && sym[live[k]].next < |sym|
    ensures AllSound(tok, scores, buf, sym, live, Queued(tok, scores, buf, sym, sym[live[k]].prev, live[k]))
    ensures AllSound(tok, scores, buf, sym, live, Queued(tok, scores, buf, sym, live[k], sym[live[k]].next))
  {
    LinksAre(sym, live, |buf|, k);
    SideSound(tok, scores, buf, sym, live, sym[live[k]].prev, live[k], if k > 0 then k - 1 else 0);
    SideSound(tok, scores, buf, sym, live, live[k], sym[live[k]].next, k);
  }

  lemma SideSound(tok: seq<bytes>, scores: seq<real>, buf: bytes, sym: seq<SpmSym>, live: seq<nat>,
                  l: int, r: int, i: nat)
    requires |scores| == |tok| && Ascending(live, |sym|) && l < |sym| && r < |sym|
    requires l < 0 || r < 0 || (i + 1 < |live| && l == live[i] && r == live[i + 1])
    ensures AllSound(tok, scores, buf, sym, live, Queued(tok, scores, buf, sym, l, r))
  {
    if l >= 0 && r >= 0 { PairSound(tok, scores, buf, sym, live, i); }
  }

  lemma RequeuedCovers(tok: seq<bytes>, scores: seq<real>, buf: bytes, sym': seq<SpmSym>, live': seq<nat>, k: nat,
                       queue: multiset<Bigram>, b: Bigram, i: nat)
    requires |scores| == |tok| && Linked(sym', live', |buf|) && k < |live'| && i + 1 < |live'|
    requires sym'[live'[k]].prev < |sym'| && sym'[live'[k]].next < |sym'|
    requires i != k && i + 1 != k ==> Covered(tok, scores, buf, sym', live', queue - multiset{b}, i)
    ensures Covered(tok, scores, buf, sym', live', Requeued(tok, scores, buf, sym', live'[k], queue, b), i)
  {
    LinksAre(sym', live', |buf|, k);
    var rest, l := queue - multiset{b}, live'[k];
    var p, q := Queued(tok, scores, buf, sym', sym'[l].prev, l), Queued(tok, scores, buf, sym', l, sym'[l].next);
    if i == k {
      CoveredNow(tok, scores, buf, sym', live', rest + p, i);
    } else if i + 1 == k {
      CoveredNow(tok, scores, buf, sym', live', rest, i);
      CoveredMore(tok, scores, buf, sym', live', rest + p, q, i);
    } else {
      CoveredMore(tok, scores, buf, sym', live', rest, p, i);
      CoveredMore(tok, scores, buf, sym', live', rest + p, q, i);
    }
  }

  /** Everything one merge achieves, as a fact about the records before and after. */
  lemma MergeEffect(tok: seq<bytes>, scores: seq<real>, buf: bytes, sym: seq<SpmSym>, live: seq<nat>,
                    queue: multiset<Bigram>, b: Bigram, k: nat)
    requires |scores| == |tok| && Inv(tok, scores, buf, sym, live, queue)
    requires k + 1 < |live| && live[k] == b.left && live[k + 1] == b.right
    ensures b.left < b.right < |sym| && sym[b.right].next < |sym|
    ensures var sym', live' := Absorb(sym, b.left, b.right, (), ()), Without(live, k + 1);
            && sym'[b.left].prev < |sym'| && sym'[b.left].next < |sym'|
            && Inv(tok, scores, buf, sym', live', Requeued(tok, scores, buf, sym', b.left, queue, b))
            && Words(buf, sym', live') == MergeAt(Words(buf, sym, live), k)
  {
    AbsorbLinked(sym, live, |buf|, k, (), ());
    AbsorbWords(buf, sym, live, k, (), ());
    var sym', live' := Absorb(sym, b.left, b.right, (), ()), Without(live, k + 1);
    AbsorbOffsets(sym, b.left, b.right, (), ());
    MergeSound(tok, scores, buf, sym, sym', live, queue, b, k + 1);
    RequeuedSound(tok, scores, buf, sym', live', k, queue, b);
    forall i | 0 <= i < |live'| - 1
      ensures Covered(tok, scores, buf, sym', live', Requeued(tok, scores, buf, sym', live[k], queue, b), i)
    {
      if i != k && i + 1 != k {
        assert Covered(tok, scores, buf, sym, live, queue, if i < k + 1 then i else i + 1);
        MergeCovered(tok, scores, buf, sym, live, queue, b, k, i);
      }
      RequeuedCovers(tok, scores, buf, sym', live', k, queue, b, i);
    }
  }

  ghost predicate Picked(tok: seq<bytes>, scores: seq<real>, buf: bytes, sym: seq<SpmSym>, live: seq<nat>,
                         b: Bigram, k: nat)
    requires |scores| == |tok|
  {
    && Ascending(live, |sym|) && k + 1 < |live| && live[k] == b.left && live[k + 1] == b.right && Fresh(sym, b)
    && Merged(Words(buf, sym, live), ScoreRank(tok, scores))
       == Merged(MergeAt(Words(buf, sym, live), k), ScoreRank(tok, scores))
  }

  /** The fate of a popped candidate: dropped when outdated, otherwise the pair the specification joins next. */
  lemma CandidateFate(tok: seq<bytes>, scores: seq<real>, buf: bytes, sym: seq<SpmSym>, live: seq<nat>,
                      queue: multiset<Bigram>, b: Bigram) returns (k: nat)
    requires |scores| == |tok| && Inv(tok, scores, buf, sym, live, queue)
    requires b in queue && (forall x | x in queue :: !Before(x, b))
    ensures b.left < |sym| && b.right < |sym|
    ensures !Fresh(sym, b) ==> Inv(tok, scores, buf, sym, live, queue - multiset{b})
    ensures Fresh(sym, b) ==> Picked(tok, scores, buf, sym, live, b, k)
  {
    assert Sound(tok, scores, buf, sym, live, b);
    if Fresh(sym, b) {
      k := StillAdjacent(sym, live, |buf|, b.left, b.right);
      FreshIsBest(tok, scores, buf, sym, live, queue, b, k);
      MergedStep(Words(buf, sym, live), ScoreRank(tok, scores), k);
    } else {
      k := 0;
      DropStale(tok, scores, buf, sym, live, queue, b);
    }
  }

  lemma NothingLeft(tok: seq<bytes>, scores: seq<real>, buf: bytes, sym: seq<SpmSym>, live: seq<nat>)
    requires |scores| == |tok| && Inv(tok, scores, buf, sym, live, multiset{})
    ensures Merged(Words(buf, sym, live), ScoreRank(tok, scores)) == Words(buf, sym, live)
  {
    var ws, rank := Words(buf, sym, live), ScoreRank(tok, scores);
    forall j | 0 <= j < |ws| - 1 ensures PairRank(ws, rank, j).None? {
      assert Covered(tok, scores, buf, sym, live, multiset{}, j);
      RankOfPair(tok, scores, buf, sym, live, j);
    }
    MergedDone(ws, rank);
  }

  /** SPM_TRY. The heap was allocated once; there is always room. */
  method Try(vocab: StringMap, tok: seq<bytes>, scores: seq<real>, buf: bytes, sym: array<SpmSym>, l: int, r: int,
             heap: Heap<Bigram>)
    requires vocab.Valid() && Indexes(vocab.m, tok) && |scores| == |tok|
    requires l < sym.Length && r < sym.Length
    requires l >= 0 && r >= 0 ==> sym[l].off + sym[l].n + sym[r].n <= |buf|
    requires heap.Valid() && heap.n < heap.e.Length && heap.e != sym as object && heap.e != vocab.e as object
    modifies heap`n, heap.e
    ensures heap.Valid() && heap.e == old(heap.e) && old(heap.n) <= heap.n <= old(heap.n) + 1
    ensures heap.Contents() == old(heap.Contents()) + Queued(tok, scores, buf, sym[..], l, r)
  {
    if l >= 0 && r >= 0 {
      var c := CandidateOf(vocab, tok, scores, buf, sym, l, r);
      if c.Some? { heap.Push(c.value); }
    }
  }

  /** The candidate of two records, if their joined text is an entry. */
  method CandidateOf(vocab: StringMap, tok: seq<bytes>, scores: seq<real>, buf: bytes, sym: array<SpmSym>, l: nat,
                     r: nat)
    returns (c: Option<Bigram>)
    requires vocab.Valid() && Indexes(vocab.m, tok) && |scores| == |tok|
    requires l < sym.Length && r < sym.Length && sym[l].off + sym[l].n + sym[r].n <= |buf|
    ensures c == Candidate(tok, scores, buf, sym[..], l, r)
  {
    var nn := sym[l].n + sym[r].n;
    var id := IdOf(vocab, tok, buf, sym[l].off, nn);
    c := if id >= 0 then Some(Bigram(l, r, scores[id], nn)) else None;
  }

  /** The id of the n bytes at an offset, -1 if they are no entry. */
  method IdOf(vocab: StringMap, tok: seq<bytes>, buf: bytes, off: nat, n: nat) returns (id: int)
    requires vocab.Valid() && Indexes(vocab.m, tok) && off + n <= |buf|
    ensures id == Lookup(tok, Slice(buf, off, n))
  {
    id := vocab.Get(buf[off..off + n], -1);
  }

  method Join(sym: array<SpmSym>, l: nat, r: nat)
    requires l < sym.Length && r < sym.Length && l != r && sym[r].next < sym.Length
    modifies sym
    ensures sym[..] == Absorb(old(sym[..]), l, r, (), ())
  {
    assert sym[l].tag == () && sym[r].tag == ();
    sym[l] := sym[l].(n := sym[l].n + sym[r].n);
    sym[r] := sym[r].(n := 0);
    sym[l] := sym[l].(next := sym[r].next);
    if sym[r].next >= 0 {
      sym[sym[r].next] := sym[sym[r].next].(prev := l);
    }
  }

  method PopCandidate(ghost tok: seq<bytes>, ghost scores: seq<real>, ghost buf: bytes, sym: array<SpmSym>,
                      heap: Heap<Bigram>, ghost live: seq<nat>)
    returns (b: Bigram, current: bool, ghost k: nat)
    requires |scores| == |tok| && heap.Valid() && heap.before == Before && heap.n > 0
    requires heap.e != sym as object && Inv(tok, scores, buf, sym[..], live, heap.Contents())
    modifies heap`n, heap.e
    ensures heap.Valid() && heap.e == old(heap.e) && heap.n == old(heap.n) - 1
    ensures heap.Contents() == old(heap.Contents()) - multiset{b}
    ensures !current ==> Inv(tok, scores, buf, sym[..], live, heap.Contents())
    ensures current ==> Picked(tok, scores, buf, sym[..], live, b, k)
  {
    ghost var queue := heap.Contents();
    b := heap.Pop();
    k := CandidateFate(tok, scores, buf, sym[..], live, queue, b);
    current := IsCurrent(sym, b);
  }

  /** The test of the loop, on the array. */
  method IsCurrent(sym: array<SpmSym>, b: Bigram) returns (current: bool)
    requires b.left < sym.Length && b.right < sym.Length
    ensures current <==> Fresh(sym[..], b)
  {
    current := !(sym[b.left].n == 0 || sym[b.right].n == 0 || sym[b.left].n + sym[b.right].n != b.size);
  }

  lemma NeighbourRoom(buf: bytes, sym: seq<SpmSym>, live: seq<nat>, k: nat)
    requires Linked(sym, live, |buf|) && k < |live|
    ensures var s := sym[live[k]];
            && s.prev < |sym| && s.next < |sym|
            && (s.prev >= 0 ==> sym[s.prev].off + sym[s.prev].n + s.n <= |buf|)
            && (s.next >= 0 ==> s.off + s.n + sym[s.next].n <= |buf|)
  {
    assert LinkAt(sym, live, |buf|, k);
    SpanBound(sym, live, |buf|, k);
    if k > 0 { JoinSpans(buf, sym, live, k - 1); }
    if k + 1 < |live| { JoinSpans(buf, sym, live, k); }
  }

  /** Try the pairs a merged symbol forms with its two neighbours. */
  method Requeue(vocab: StringMap, tok: seq<bytes>, scores: seq<real>, buf: bytes, sym: array<SpmSym>, l: nat,
                 heap: Heap<Bigram>)
    requires vocab.Valid() && Indexes(vocab.m, tok) && |scores| == |tok| && l < sym.Length
    requires sym[l].prev < sym.Length && sym[l].next < sym.Length
    requires sym[l].prev >= 0 ==> sym[sym[l].prev].off + sym[sym[l].prev].n + sym[l].n <= |buf|
    requires sym[l].next >= 0 ==> sym[l].off + sym[l].n + sym[sym[l].next].n <= |buf|
    requires heap.Valid() && heap.n + 2 <= heap.e.Length && heap.e != sym as object && heap.e != vocab.e as object
    modifies heap`n, heap.e
    ensures heap.Valid() && heap.e == old(heap.e) && old(heap.n) <= heap.n <= old(heap.n) + 2
    ensures heap.Contents() == old(heap.Contents()) + Queued(tok, scores, buf, sym[..], sym[l].prev, l)
                                                    + Queued(tok, scores, buf, sym[..], l, sym[l].next)
  {
    Try(vocab, tok, scores, buf, sym, sym[l].prev, l, heap);
    Try(vocab, tok, scores, buf, sym, l, sym[l].next, heap);
  }

  /** Record l has room for a join with each of its neighbours. */
  predicate RoomAround(buf: bytes, sym: seq<SpmSym>, l: nat)
    requires l < |sym|
  {
    && sym[l].prev < |sym| && sym[l].next < |sym|
    && (sym[l].prev >= 0 ==> sym[sym[l].prev].off + sym[sym[l].prev].n + sym[l].n <= |buf|)
    && (sym[l].next >= 0 ==> sym[l].off + sym[l].n + sym[sym[l].next].n <= |buf|)
  }

  method JoinAndRequeue(vocab: StringMap, tok: seq<bytes>, scores: seq<real>, buf: bytes, sym: array<SpmSym>,
                        l: nat, r: nat, heap: Heap<Bigram>)
    requires vocab.Valid() && Indexes(vocab.m, tok) && |scores| == |tok|
    requires l < sym.Length && r < sym.Length && l != r && sym[r].next < sym.Length
    requires RoomAround(buf, Absorb(sym[..], l, r, (), ()), l)
    requires heap.Valid() && heap.n + 2 <= heap.e.Length
    requires heap.e != sym as object && heap.e != vocab.e as object && sym != vocab.e as object
    modifies sym, heap`n, heap.e
    ensures heap.Valid() && heap.e == old(heap.e) && old(heap.n) <= heap.n <= old(heap.n) + 2
    ensures sym[..] == Absorb(old(sym[..]), l, r, (), ())
    ensures heap.Contents() == old(heap.Contents()) + Queued(tok, scores, buf, sym[..], sym[l].prev, l)
                                                    + Queued(tok, scores, buf, sym[..], l, sym[l].next)
  {
    Join(sym, l, r);
    Requeue(vocab, tok, scores, buf, sym, l, heap);
  }

  method MergePair(vocab: StringMap, tok: seq<bytes>, scores: seq<real>, buf: bytes, sym: array<SpmSym>,
                   heap: Heap<Bigram>, b: Bigram, ghost live: seq<nat>, ghost queue: multiset<Bigram>, ghost k: nat)
    requires vocab.Valid() && Indexes(vocab.m, tok) && |scores| == |tok|
    requires heap.Valid() && heap.n + 2 <= heap.e.Length
    requires heap.e != sym as object && heap.e != vocab.e as object && sym != vocab.e as object
    requires Inv(tok, scores, buf, sym[..], live, queue) && heap.Contents() == queue - multiset{b}
    requires k + 1 < |live| && live[k] == b.left && live[k + 1] == b.right
    modifies sym, heap`n, heap.e
    ensures heap.Valid() && heap.e == old(heap.e) && old(heap.n) <= heap.n <= old(heap.n) + 2
    ensures Inv(tok, scores, buf, sym[..], Without(live, k + 1), heap.Contents())
    ensures Words(buf, sym[..], Without(live, k + 1)) == MergeAt(old(Words(buf, sym[..], live)), k)
  {
    MergeEffect(tok, scores, buf, sym[..], live, queue, b, k);
    NeighbourRoom(buf, Absorb(sym[..], b.left, b.right, (), ()), Without(live, k + 1), k);
    JoinAndRequeue(vocab, tok, scores, buf, sym, b.left, b.right, heap);
    assert heap.Contents() == Requeued(tok, scores, buf, sym[..], b.left, queue, b);
  }

  /**
   * The SPM loop. `symbols` is the number of initial symbols, of which at most `symbols - 1`
   * pairs were queued at the start: then no more than 3 * (symbols - 1) candidates are ever
   * queued, so a heap of that many entries is never overrun.
   */
  method MergeLoop(vocab: StringMap, tok: seq<bytes>, scores: seq<real>, buf: bytes, sym: array<SpmSym>,
                   heap: Heap<Bigram>, ghost live0: seq<nat>)
    returns (ghost live: seq<nat>, ghost pushes: nat)
    requires vocab.Valid() && Indexes(vocab.m, tok) && |scores| == |tok|
    requires heap.Valid() && heap.before == Before && heap.n < |live0| && 3 * (|live0| - 1) <= heap.e.Length
    requires heap.e != sym as object && heap.e != vocab.e as object && sym != vocab.e as object
    requires Inv(tok, scores, buf, sym[..], live0, heap.Contents())
    modifies sym, heap`n, heap.e
    ensures Linked(sym[..], live, |buf|)
    ensures Words(buf, sym[..], live) == Merged(old(Words(buf, sym[..], live0)), ScoreRank(tok, scores))
    ensures pushes <= 3 * (|live0| - 1)
  {
    live, pushes := live0, heap.n;
    while heap.n > 0
      invariant vocab.Valid() && heap.Valid() && heap.e == old(heap.e)
      invariant Inv(tok, scores, buf, sym[..], live, heap.Contents())
      invariant Merged(Words(buf, sym[..], live), ScoreRank(tok, scores))
             == Merged(old(Words(buf, sym[..], live0)), ScoreRank(tok, scores))
      invariant heap.n <= pushes && pushes + 2 * |live| <= 3 * |live0| - 1
      decreases 3 * |live| + heap.n
    {
      ghost var queue := heap.Contents();
      var b, current, k := PopCandidate(tok, scores, buf, sym, heap, live);
      if current {
        ghost var before := heap.n;
        MergePair(vocab, tok, scores, buf, sym, heap, b, live, queue, k);
        live := Without(live, k + 1);
        pushes := pushes + (heap.n - before);
      }
    }
    assert heap.Contents() == multiset{};
    NothingLeft(tok, scores, buf, sym[..], live);
  }
}
