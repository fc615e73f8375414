/**
 * The merge loop of g4_piece (src/tokenizer/gemma4_bpe.c): a heap of candidate pairs over a
 * linked list of symbols, candidates recognised as outdated by comparing ids.
 */
module Gemma4Merge {
  import opened Common
  import opened OpenTable
  import opened Vocab
  import opened MergeSpec
  import opened Symbols
  import opened BinaryHeap
  import opened Gemma4Build

  type IdSym = Sym<int>

  /** g4_bigram: a candidate pair with the ids its sides had when it was queued. */
  datatype Bigram = Bigram(rank: int, left: nat, right: nat, lid: int, rid: int)

  predicate Before(a: Bigram, b: Bigram) {
    a.rank < b.rank || (a.rank == b.rank && a.left < b.left)
  }

  /** Joining by spelling: the index of the first merge line "a b". */
  function MergeRank(merges: seq<bytes>): Rank {
    (a: bytes, b: bytes) => var r := LineRank(merges, a, b); if r < 0 then None else Some(r as real)
  }

  /** The candidate queued for two neighbouring records, if their ids may be joined. */
  function Candidate(tok: seq<bytes>, merges: seq<bytes>, sym: seq<IdSym>, l: nat, r: nat): Option<Bigram>
    requires l < |sym| && r < |sym|
  {
    var rank := IdRank(tok, merges, sym[l].tag, sym[r].tag);
    if sym[l].tag < 0 || sym[r].tag < 0 || rank < 0 then None
    else Some(Bigram(rank, l, r, sym[l].tag, sym[r].tag))
  }

  /** Every live record carries the id of its spelling. */
  ghost predicate IdsMatch(tok: seq<bytes>, buf: bytes, sym: seq<IdSym>, live: seq<nat>)
    requires Ascending(live, |sym|)
  {
    forall i | 0 <= i < |live| :: sym[live[i]].tag == Lookup(tok, Span(buf, sym[live[i]]))
  }

  /** The candidate of the i-th neighbouring pair, if any, is queued. */
  ghost predicate Covered(tok: seq<bytes>, merges: seq<bytes>, sym: seq<IdSym>, live: seq<nat>,
                          queue: multiset<Bigram>, i: int)
    requires Ascending(live, |sym|) && 0 <= i < |live| - 1
  {
    var c := Candidate(tok, merges, sym, live[i], live[i + 1]);
    c.Some? ==> c.value in queue
  }

  /** A queued candidate: its rank is right for its ids, and no live record lies between its sides. */
  ghost predicate Sound(tok: seq<bytes>, merges: seq<bytes>, len: nat, live: seq<nat>, b: Bigram) {
    && b.left < b.right < len && b.lid >= 0 && b.rid >= 0
    && b.rank == IdRank(tok, merges, b.lid, b.rid) >= 0
    && (forall x | b.left < x < b.right :: x !in live)
  }

  ghost predicate AllSound(tok: seq<bytes>, merges: seq<bytes>, len: nat, live: seq<nat>, queue: multiset<Bigram>) {
    forall b | b in queue :: Sound(tok, merges, len, live, b)
  }

  ghost predicate Inv(tok: seq<bytes>, merges: seq<bytes>, buf: bytes, sym: seq<IdSym>, live: seq<nat>,
                      queue: multiset<Bigram>) {
    && Linked(sym, live, |buf|)
    && IdsMatch(tok, buf, sym, live)
    && AllSound(tok, merges, |sym|, live, queue)
    && (forall i | 0 <= i < |live| - 1 :: Covered(tok, merges, sym, live, queue, i))
  }

  /** The test of the loop: both sides still live and still carrying the ids recorded. */
  predicate Fresh(sym: seq<IdSym>, b: Bigram)
    requires b.left < |sym| && b.right < |sym|
  {
    sym[b.left].n != 0 && sym[b.right].n != 0 && sym[b.left].tag == b.lid && sym[b.right].tag == b.rid
  }

  /** Ranking neighbours by id is ranking them by spelling. */
  lemma CandidateIsRanked(tok: seq<bytes>, merges: seq<bytes>, buf: bytes, sym: seq<IdSym>, live: seq<nat>, i: nat)
    requires Buildable(tok, merges)
    requires Ascending(live, |sym|) && IdsMatch(tok, buf, sym, live) && i + 1 < |live|
    ensures var c := Candidate(tok, merges, sym, live[i], live[i + 1]);
            IdRank(tok, merges, sym[live[i]].tag, sym[live[i + 1]].tag) ==
              LineRank(merges, Span(buf, sym[live[i]]), Span(buf, sym[live[i + 1]]))
            && (c.Some? <==> IdRank(tok, merges, sym[live[i]].tag, sym[live[i + 1]].tag) >= 0)
  {
    var a, b := Span(buf, sym[live[i]]), Span(buf, sym[live[i + 1]]);
    assert sym[live[i]].tag == Lookup(tok, a) && sym[live[i + 1]].tag == Lookup(tok, b);
    var rank := LineRank(merges, a, b);
    if rank >= 0 {
      assert Representable(tok, merges[rank]);
    }
  }

  lemma RankOfPair(tok: seq<bytes>, merges: seq<bytes>, buf: bytes, sym: seq<IdSym>, live: seq<nat>, i: nat)
    requires Buildable(tok, merges)
    requires Ascending(live, |sym|) && IdsMatch(tok, buf, sym, live) && i + 1 < |live|
    ensures PairRank(Words(buf, sym, live), MergeRank(merges), i) ==
            match Candidate(tok, merges, sym, live[i], live[i + 1])
            case None => None
            case Some(c) => Some(c.rank as real)
  {
    CandidateIsRanked(tok, merges, buf, sym, live, i);
  }

  /** A fresh first candidate names the best pair of neighbours. */
  lemma FreshIsBest(tok: seq<bytes>, merges: seq<bytes>, buf: bytes, sym: seq<IdSym>, live: seq<nat>,
                    queue: multiset<Bigram>, b: Bigram, k: nat)
    requires Buildable(tok, merges) && Inv(tok, merges, buf, sym, live, queue)
    requires b in queue && (forall x | x in queue :: !Before(x, b))
    requires k + 1 < |live| && live[k] == b.left && live[k + 1] == b.right && Fresh(sym, b)
    ensures IsBest(Words(buf, sym, live), MergeRank(merges), k)
  {
    var ws, rank := Words(buf, sym, live), MergeRank(merges);
    assert Sound(tok, merges, |sym|, live, b);
    assert Candidate(tok, merges, sym, live[k], live[k + 1]) == Some(b);
    RankOfPair(tok, merges, buf, sym, live, k);
    forall j | 0 <= j < |ws| - 1 ensures Beats(ws, rank, k, j) {
      RankOfPair(tok, merges, buf, sym, live, j);
      assert Covered(tok, merges, sym, live, queue, j);
      var c := Candidate(tok, merges, sym, live[j], live[j + 1]);
      if c.Some? {
        assert !Before(c.value, b);
        assert j < k ==> live[j] < live[k];
      }
    }
  }

  /** Dropping an outdated candidate loses nothing. */
  lemma DropStale(tok: seq<bytes>, merges: seq<bytes>, buf: bytes, sym: seq<IdSym>, live: seq<nat>,
                  queue: multiset<Bigram>, b: Bigram)
    requires Inv(tok, merges, buf, sym, live, queue) && b in queue
    requires b.left < |sym| && b.right < |sym| && !Fresh(sym, b)
    ensures Inv(tok, merges, buf, sym, live, queue - multiset{b})
  {
    forall i | 0 <= i < |live| - 1 ensures Covered(tok, merges, sym, live, queue - multiset{b}, i) {
      assert Covered(tok, merges, sym, live, queue, i);
      assert LinkAt(sym, live, |buf|, i) && LinkAt(sym, live, |buf|, i + 1);
    }
  }

  /** The new symbol's id is the id of its spelling. */
  lemma MergeIds(tok: seq<bytes>, merges: seq<bytes>, buf: bytes, sym: seq<IdSym>, live: seq<nat>, k: nat, id: int)
    requires Linked(sym, live, |buf|) && IdsMatch(tok, buf, sym, live) && k + 1 < |live|
    requires sym[live[k + 1]].next < |sym| && Ascending(Without(live, k + 1), |sym|)
    requires id == Lookup(tok, Span(buf, sym[live[k]]) + Span(buf, sym[live[k + 1]]))
    ensures IdsMatch(tok, buf, Absorb(sym, live[k], live[k + 1], id, -1), Without(live, k + 1))
  {
    var live' := Without(live, k + 1);
    forall i | 0 <= i < |live'|
      ensures var s := Absorb(sym, live[k], live[k + 1], id, -1)[live'[i]]; s.tag == Lookup(tok, Span(buf, s))
    {
      var i0 := if i < k + 1 then i else i + 1;
      AbsorbRecord(sym, live, |buf|, k, id, -1, i0);
      AbsorbWord(buf, sym, live, k, id, -1, i0);
    }
  }

  /** Pairs not touching the merged symbol keep their candidates. */
  lemma MergeCovered(tok: seq<bytes>, merges: seq<bytes>, buf: bytes, sym: seq<IdSym>, live: seq<nat>,
                     queue: multiset<Bigram>, b: Bigram, k: nat, id: int, i: nat)
    requires Linked(sym, live, |buf|)
    requires k + 1 < |live| && live[k] == b.left && live[k + 1] == b.right
    requires sym[live[k + 1]].next < |sym| && Ascending(Without(live, k + 1), |sym|)
    requires i + 2 < |live| && i != k && i + 1 != k
    requires Covered(tok, merges, sym, live, queue, if i < k + 1 then i else i + 1)
    ensures Covered(tok, merges, Absorb(sym, live[k], live[k + 1], id, -1), Without(live, k + 1),
                    queue - multiset{b}, i)
  {
    var i0 := if i < k + 1 then i else i + 1;
    AbsorbKeeps(sym, live, |buf|, k, id, -1, i0);
    AbsorbKeeps(sym, live, |buf|, k, id, -1, i0 + 1);
    WithoutAt(live, k, i);
    SameCovered(tok, merges, sym, live, Absorb(sym, live[k], live[k + 1], id, -1), Without(live, k + 1),
                queue, b, i0, i);
  }

  /** A pair with the same records and ids has the same candidate. */
  lemma SameCovered(tok: seq<bytes>, merges: seq<bytes>, sym: seq<IdSym>, live: seq<nat>,
                    sym': seq<IdSym>, live': seq<nat>, queue: multiset<Bigram>, b: Bigram, i0: nat, i: nat)
    requires Ascending(live, |sym|) && Ascending(live', |sym'|) && i0 + 1 < |live| && i + 1 < |live'|
    requires live'[i] == live[i0] && live'[i + 1] == live[i0 + 1] && live[i0] != b.left
    requires sym'[live'[i]].tag == sym[live[i0]].tag && sym'[live'[i + 1]].tag == sym[live[i0 + 1]].tag
    requires Covered(tok, merges, sym, live, queue, i0)
    ensures Covered(tok, merges, sym', live', queue - multiset{b}, i)
  {}

  lemma MergeSound(tok: seq<bytes>, merges: seq<bytes>, len: nat, live: seq<nat>, queue: multiset<Bigram>,
                   b: Bigram, k: nat)
    requires AllSound(tok, merges, len, live, queue) && k < |live| && Ascending(live, len)
    ensures AllSound(tok, merges, len, Without(live, k), queue - multiset{b})
  {
    WithoutMembers(live, k, len);
    forall c | c in queue - multiset{b} ensures Sound(tok, merges, len, Without(live, k), c) {
      assert Sound(tok, merges, len, live, c);
    }
  }

  function Queued(tok: seq<bytes>, merges: seq<bytes>, sym: seq<IdSym>, l: int, r: int): multiset<Bigram>
    requires l < |sym| && r < |sym|
  {
    if l < 0 || r < 0 then multiset{} else
    match Candidate(tok, merges, sym, l, r)
    case None => multiset{}
    case Some(c) => multiset{c}
  }

  lemma PairSound(tok: seq<bytes>, merges: seq<bytes>, sym: seq<IdSym>, live: seq<nat>, i: nat)
    requires Ascending(live, |sym|) && i + 1 < |live|
    ensures AllSound(tok, merges, |sym|, live, Queued(tok, merges, sym, live[i], live[i + 1]))
  {}

  lemma SoundPlus(tok: seq<bytes>, merges: seq<bytes>, len: nat, live: seq<nat>, p: multiset<Bigram>,
                  q: multiset<Bigram>)
    requires AllSound(tok, merges, len, live, p) && AllSound(tok, merges, len, live, q)
    ensures AllSound(tok, merges, len, live, p + q)
  {}

  lemma PushSound(tok: seq<bytes>, merges: seq<bytes>, sym: seq<IdSym>, live: seq<nat>, queue: multiset<Bigram>, i: nat)
    requires Ascending(live, |sym|) && AllSound(tok, merges, |sym|, live, queue) && i + 1 < |live|
    ensures AllSound(tok, merges, |sym|, live, queue + Queued(tok, merges, sym, live[i], live[i + 1]))
  {
    PairSound(tok, merges, sym, live, i);
    SoundPlus(tok, merges, |sym|, live, queue, Queued(tok, merges, sym, live[i], live[i + 1]));
  }

  lemma CoveredMore(tok: seq<bytes>, merges: seq<bytes>, sym: seq<IdSym>, live: seq<nat>,
                    queue: multiset<Bigram>, extra: multiset<Bigram>, i: nat)
    requires Ascending(live, |sym|) && i + 1 < |live| && Covered(tok, merges, sym, live, queue, i)
    ensures Covered(tok, merges, sym, live, queue + extra, i)
  {}

  lemma CoveredNow(tok: seq<bytes>, merges: seq<bytes>, sym: seq<IdSym>, live: seq<nat>, queue: multiset<Bigram>,
                   i: nat)
    requires Ascending(live, |sym|) && i + 1 < |live|
    ensures Covered(tok, merges, sym, live, queue + Queued(tok, merges, sym, live[i], live[i + 1]), i)
  {}

  lemma QueuedSound(tok: seq<bytes>, merges: seq<bytes>, sym: seq<IdSym>, live: seq<nat>, total: nat,
                    queue: multiset<Bigram>, k: nat)
    requires Linked(sym, live, total) && k < |live| && AllSound(tok, merges, |sym|, live, queue)
    ensures sym[live[k]].prev < |sym| && sym[live[k]].next < |sym|
    ensures AllSound(tok, merges, |sym|, live, queue + Queued(tok, merges, sym, sym[live[k]].prev, live[k])
                                                     + Queued(tok, merges, sym, live[k], sym[live[k]].next))
  {
    LinksAre(sym, live, total, k);
    var p := Queued(tok, merges, sym, sym[live[k]].prev, live[k]);
    var q := Queued(tok, merges, sym, live[k], sym[live[k]].next);
    SidesSound(tok, merges, sym, live, total, k);
    SoundPlus(tok, merges, |sym|, live, queue, p);
    SoundPlus(tok, merges, |sym|, live, queue + p, q);
  }

  lemma SidesSound(tok: seq<bytes>, merges: seq<bytes>, sym: seq<IdSym>, live: seq<nat>, total: nat, k: nat)
    requires Linked(sym, live, total) && k < |live| && sym[live[k]].prev < |sym| && sym[live[k]].next < |sym|
    ensures AllSound(tok, merges, |sym|, live, Queued(tok, merges, sym, sym[live[k]].prev, live[k]))
    ensures AllSound(tok, merges, |sym|, live, Queued(tok, merges, sym, live[k], sym[live[k]].next))
  {
    LinksAre(sym, live, total, k);
    SideSound(tok, merges, sym, live, sym[live[k]].prev, live[k], if k > 0 then k - 1 else 0);
    SideSound(tok, merges, sym, live, live[k], sym[live[k]].next, k);
  }

  lemma SideSound(tok: seq<bytes>, merges: seq<bytes>, sym: seq<IdSym>, live: seq<nat>, l: int, r: int, i: nat)
    requires Ascending(live, |sym|) && l < |sym| && r < |sym|
    requires l < 0 || r < 0 || (i + 1 < |live| && l == live[i] && r == live[i + 1])
    ensures AllSound(tok, merges, |sym|, live, Queued(tok, merges, sym, l, r))
  {
    if l >= 0 && r >= 0 { PairSound(tok, merges, sym, live, i); }
  }

  /** The queue after merging pair `k` for candidate `b` and re-queueing its two neighbours. */
  function Requeued(tok: seq<bytes>, merges: seq<bytes>, sym': seq<IdSym>, l: nat,
                    queue: multiset<Bigram>, b: Bigram): multiset<Bigram>
    requires l < |sym'| && sym'[l].prev < |sym'| && sym'[l].next < |sym'|
  {
    queue - multiset{b} + Queued(tok, merges, sym', sym'[l].prev, l) + Queued(tok, merges, sym', l, sym'[l].next)
  }

  lemma RequeuedCovers(tok: seq<bytes>, merges: seq<bytes>, sym': seq<IdSym>, live': seq<nat>, total: nat, k: nat,
                       queue: multiset<Bigram>, b: Bigram, i: nat)
    requires Linked(sym', live', total) && k < |live'| && i + 1 < |live'|
    requires sym'[live'[k]].prev < |sym'| && sym'[live'[k]].next < |sym'|
    requires i != k && i + 1 != k ==> Covered(tok, merges, sym', live', queue - multiset{b}, i)
    ensures Covered(tok, merges, sym', live', Requeued(tok, merges, sym', live'[k], queue, b), i)
  {
    LinksAre(sym', live', total, k);
    var rest, l := queue - multiset{b}, live'[k];
    var p, q := Queued(tok, merges, sym', sym'[l].prev, l), Queued(tok, merges, sym', l, sym'[l].next);
    if i == k {
      CoveredNow(tok, merges, sym', live', rest + p, i);
    } else if i + 1 == k {
      CoveredNow(tok, merges, sym', live', rest, i);
      CoveredMore(tok, merges, sym', live', rest + p, q, i);
    } else {
      CoveredMore(tok, merges, sym', live', rest, p, i);
      CoveredMore(tok, merges, sym', live', rest + p, q, i);
    }
  }

  /** One merge, its two re-queued neighbours included, keeps the invariant. */
  lemma MergeInv(tok: seq<bytes>, merges: seq<bytes>, buf: bytes, sym: seq<IdSym>, live: seq<nat>,
                 queue: multiset<Bigram>, b: Bigram, k: nat, id: int)
    requires Inv(tok, merges, buf, sym, live, queue)
    requires k + 1 < |live| && live[k] == b.left && live[k + 1] == b.right
    requires id == Lookup(tok, Span(buf, sym[live[k]]) + Span(buf, sym[live[k + 1]]))
    ensures sym[live[k + 1]].next < |sym|
    ensures var sym', live' := Absorb(sym, live[k], live[k + 1], id, -1), Without(live, k + 1);
            && sym'[live[k]].prev < |sym| && sym'[live[k]].next < |sym|
            && Inv(tok, merges, buf, sym', live', Requeued(tok, merges, sym', live[k], queue, b))
  {
    AbsorbLinked(sym, live, |buf|, k, id, -1);
    var sym', live' := Absorb(sym, live[k], live[k + 1], id, -1), Without(live, k + 1);
    MergeIds(tok, merges, buf, sym, live, k, id);
    MergeSound(tok, merges, |sym|, live, queue, b, k + 1);
    QueuedSound(tok, merges, sym', live', |buf|, queue - multiset{b}, k);
    forall i | 0 <= i < |live'| - 1
      ensures Covered(tok, merges, sym', live', Requeued(tok, merges, sym', live[k], queue, b), i)
    {
      if i != k && i + 1 != k {
        assert Covered(tok, merges, sym, live, queue, if i < k + 1 then i else i + 1);
        MergeCovered(tok, merges, buf, sym, live, queue, b, k, id, i);
      }
      RequeuedCovers(tok, merges, sym', live', |buf|, k, queue, b, i);
    }
  }

  /** The table's result for the pair is the id of the joined spelling. */
  lemma ResultSpells(tok: seq<bytes>, merges: seq<bytes>, buf: bytes, sym: seq<IdSym>, live: seq<nat>, b: Bigram,
                     k: nat)
    requires Buildable(tok, merges) && Ascending(live, |sym|) && IdsMatch(tok, buf, sym, live)
    requires k + 1 < |live| && live[k] == b.left && live[k + 1] == b.right && Fresh(sym, b)
    requires b.rank == IdRank(tok, merges, b.lid, b.rid) >= 0
    ensures b.rank < |merges| &&
            ResultId(tok, merges[b.rank]) == Lookup(tok, Span(buf, sym[live[k]]) + Span(buf, sym[live[k + 1]]))
  {
    assert sym[live[k]].tag == Lookup(tok, Span(buf, sym[live[k]]));
    assert sym[live[k + 1]].tag == Lookup(tok, Span(buf, sym[live[k + 1]]));
  }

  /** g4_try_pair: queue the pair (l, r) if both exist and their ids may be joined. */
  method TryPair(t: Tables, tok: seq<bytes>, merges: seq<bytes>, sym: array<IdSym>, l: int, r: int, heap: Heap<Bigram>)
    requires t.Built(tok, merges) && |tok| <= I32
    requires l < sym.Length && (l >= 0 ==> sym[l].tag < |tok|)
    requires r < sym.Length && (r >= 0 ==> sym[r].tag < |tok|)
    requires heap.Valid() && heap.e != sym as object
    requires heap.e != t.pairs.keys as object && heap.e != t.pairs.ranks as object
    modifies heap, heap.e
    ensures heap.Valid() && (heap.e == old(heap.e) || fresh(heap.e))
    ensures heap.Contents() == old(heap.Contents()) + Queued(tok, merges, sym[..], l, r)
    ensures heap.n <= old(heap.n) + 1
  {
    if l < 0 || r < 0 { return; }
    if sym[l].tag < 0 || sym[r].tag < 0 { return; }
    var rank := LookUp(t, tok, merges, sym[l].tag, sym[r].tag);
    if rank < 0 { return; }
    Enqueue(heap, Bigram(rank, l, r, sym[l].tag, sym[r].tag));
  }

  /** The rank of two ids in the table. */
  method LookUp(t: Tables, tok: seq<bytes>, merges: seq<bytes>, a: nat, b: nat) returns (rank: int)
    requires t.Built(tok, merges) && |tok| <= I32 && a < |tok| && b < |tok|
    ensures rank >= 0 <==> IdRank(tok, merges, a, b) >= 0
    ensures rank >= 0 ==> rank == IdRank(tok, merges, a, b)
  {
    PairKeyInjective(a, b, a, b);
    rank := t.pairs.Rank(PairKey(a, b));
  }

  /** Append to the heap, which grows when it is full. */
  method Enqueue(heap: Heap<Bigram>, b: Bigram)
    requires heap.Valid()
    modifies heap, heap.e
    ensures heap.Valid() && (heap.e == old(heap.e) || fresh(heap.e)) && heap.n == old(heap.n) + 1
    ensures heap.Contents() == old(heap.Contents()) + multiset{b}
  {
    if heap.n == heap.e.Length { heap.Grow(); }
    heap.Push(b);
  }

  /** Join two neighbouring records in place. */
  method Join(sym: array<IdSym>, l: nat, r: nat, id: int)
    requires l < sym.Length && r < sym.Length && l != r && sym[r].next < sym.Length
    modifies sym
    ensures sym[..] == Absorb(old(sym[..]), l, r, id, -1)
  {
    sym[l] := sym[l].(n := sym[l].n + sym[r].n, tag := id);
    sym[r] := sym[r].(n := 0, tag := -1);
    sym[l] := sym[l].(next := sym[r].next);
    if sym[r].next >= 0 {
      sym[sym[r].next] := sym[sym[r].next].(prev := l);
    }
  }

  lemma TagsBounded(tok: seq<bytes>, buf: bytes, sym: seq<IdSym>, live: seq<nat>, total: nat, k: nat)
    requires Linked(sym, live, total) && IdsMatch(tok, buf, sym, live) && k < |live|
    ensures sym[live[k]].tag < |tok|
    ensures sym[live[k]].prev < |sym| && (sym[live[k]].prev >= 0 ==> sym[sym[live[k]].prev].tag < |tok|)
    ensures sym[live[k]].next < |sym| && (sym[live[k]].next >= 0 ==> sym[sym[live[k]].next].tag < |tok|)
  {
    assert LinkAt(sym, live, total, k);
    assert forall i | 0 <= i < |live| :: sym[live[i]].tag == Lookup(tok, Span(buf, sym[live[i]]));
  }

  /** Try the pairs a merged symbol forms with its two neighbours. */
  method Requeue(t: Tables, tok: seq<bytes>, merges: seq<bytes>, sym: array<IdSym>, l: nat, heap: Heap<Bigram>)
    requires t.Built(tok, merges) && |tok| <= I32 && l < sym.Length && sym[l].tag < |tok|
    requires sym[l].prev < sym.Length && (sym[l].prev >= 0 ==> sym[sym[l].prev].tag < |tok|)
    requires sym[l].next < sym.Length && (sym[l].next >= 0 ==> sym[sym[l].next].tag < |tok|)
    requires heap.Valid() && heap.e != sym as object
    requires heap.e != t.pairs.keys as object && heap.e != t.pairs.ranks as object
    modifies heap, heap.e
    ensures heap.Valid() && (heap.e == old(heap.e) || fresh(heap.e)) && heap.n <= old(heap.n) + 2
    ensures heap.Contents() == old(heap.Contents()) + Queued(tok, merges, sym[..], sym[l].prev, l)
                                                    + Queued(tok, merges, sym[..], l, sym[l].next)
  {
    TryPair(t, tok, merges, sym, sym[l].prev, l, heap);
    TryPair(t, tok, merges, sym, l, sym[l].next, heap);
  }

  method JoinAndRequeue(t: Tables, tok: seq<bytes>, merges: seq<bytes>, sym: array<IdSym>, l: nat, r: nat, id: int,
                        heap: Heap<Bigram>)
    requires t.Built(tok, merges) && |tok| <= I32
    requires l < sym.Length && r < sym.Length && l != r && sym[r].next < sym.Length
    requires TagsInside(tok, Absorb(sym[..], l, r, id, -1), l)
    requires heap.Valid() && heap.e != sym as object
    requires heap.e != t.pairs.keys as object && heap.e != t.pairs.ranks as object
    requires sym != t.pairs.keys as object && sym != t.pairs.ranks as object
    modifies sym, heap, heap.e
    ensures heap.Valid() && (heap.e == old(heap.e) || fresh(heap.e)) && heap.n <= old(heap.n) + 2
    ensures sym[..] == Absorb(old(sym[..]), l, r, id, -1)
    ensures heap.Contents() == old(heap.Contents()) + Queued(tok, merges, sym[..], sym[l].prev, l)
                                                    + Queued(tok, merges, sym[..], l, sym[l].next)
  {
    Join(sym, l, r, id);
    Requeue(t, tok, merges, sym, l, heap);
  }

  /** Record l and its two neighbours carry ids of the vocabulary, if any. */
  predicate TagsInside(tok: seq<bytes>, sym: seq<IdSym>, l: nat)
    requires l < |sym|
  {
    && sym[l].tag < |tok|
    && sym[l].prev < |sym| && (sym[l].prev >= 0 ==> sym[sym[l].prev].tag < |tok|)
    && sym[l].next < |sym| && (sym[l].next >= 0 ==> sym[sym[l].next].tag < |tok|)
  }

  /** Everything one merge achieves, as a fact about the records before and after. */
  lemma MergeEffect(tok: seq<bytes>, merges: seq<bytes>, buf: bytes, sym: seq<IdSym>, live: seq<nat>,
                    queue: multiset<Bigram>, b: Bigram, k: nat)
    requires Buildable(tok, merges) && Inv(tok, merges, buf, sym, live, queue)
    requires k + 1 < |live| && live[k] == b.left && live[k + 1] == b.right && Fresh(sym, b)
    requires b.rank == IdRank(tok, merges, b.lid, b.rid) >= 0
    ensures b.rank < |merges| && sym[b.right].next < |sym| && b.left < b.right < |sym|
    ensures var sym', live' := Absorb(sym, b.left, b.right, ResultId(tok, merges[b.rank]), -1), Without(live, k + 1);
            && TagsInside(tok, sym', b.left)
            && Inv(tok, merges, buf, sym', live', Requeued(tok, merges, sym', b.left, queue, b))
            && Words(buf, sym', live') == MergeAt(Words(buf, sym, live), k)
  {
    ResultSpells(tok, merges, buf, sym, live, b, k);
    var id := ResultId(tok, merges[b.rank]);
    MergeInv(tok, merges, buf, sym, live, queue, b, k, id);
    AbsorbWords(buf, sym, live, k, id, -1);
    var sym', live' := Absorb(sym, b.left, b.right, id, -1), Without(live, k + 1);
    TagsBounded(tok, buf, sym', live', |buf|, k);
  }

  /** Carry out the merge of candidate `b`, just popped, and queue the merged symbol's new neighbours. */
  method MergePair(t: Tables, tok: seq<bytes>, merges: seq<bytes>, buf: bytes, sym: array<IdSym>,
                   heap: Heap<Bigram>, b: Bigram, ghost live: seq<nat>, ghost queue: multiset<Bigram>, ghost k: nat)
    requires t.Built(tok, merges) && Buildable(tok, merges) && |tok| <= I32
    requires heap.Valid() && heap.e != sym as object
    requires heap.e != t.pairs.keys as object && heap.e != t.pairs.ranks as object
    requires sym != t.pairs.keys as object && sym != t.pairs.ranks as object
    requires Inv(tok, merges, buf, sym[..], live, queue) && heap.Contents() == queue - multiset{b}
    requires k + 1 < |live| && live[k] == b.left && live[k + 1] == b.right && Fresh(sym[..], b)
    requires b.rank == IdRank(tok, merges, b.lid, b.rid) >= 0
    modifies sym, heap, heap.e
    ensures heap.Valid() && (heap.e == old(heap.e) || fresh(heap.e)) && heap.n <= old(heap.n) + 2
    ensures Inv(tok, merges, buf, sym[..], Without(live, k + 1), heap.Contents())
    ensures Words(buf, sym[..], Without(live, k + 1)) == MergeAt(old(Words(buf, sym[..], live)), k)
  {
    MergeEffect(tok, merges, buf, sym[..], live, queue, b, k);
    JoinAndRequeue(t, tok, merges, sym, b.left, b.right, t.result[b.rank], heap);
    assert heap.Contents() == Requeued(tok, merges, sym[..], b.left, queue, b);
  }

  /**
   * The fate of a popped candidate: outdated, it can be dropped; otherwise it names the pair
   * the specification joins next.
   */
  lemma CandidateFate(tok: seq<bytes>, merges: seq<bytes>, buf: bytes, sym: seq<IdSym>, live: seq<nat>,
                      queue: multiset<Bigram>, b: Bigram) returns (k: nat)
    requires Buildable(tok, merges) && Inv(tok, merges, buf, sym, live, queue)
    requires b in queue && (forall x | x in queue :: !Before(x, b))
    ensures b.left < |sym| && b.right < |sym|
    ensures !Fresh(sym, b) ==> Inv(tok, merges, buf, sym, live, queue - multiset{b})
    ensures Fresh(sym, b) ==> Picked(tok, merges, buf, sym, live, b, k)
  {
    assert Sound(tok, merges, |sym|, live, b);
    if Fresh(sym, b) {
      k := StillAdjacent(sym, live, |buf|, b.left, b.right);
      FreshIsBest(tok, merges, buf, sym, live, queue, b, k);
      MergedStep(Words(buf, sym, live), MergeRank(merges), k);
    } else {
      k := 0;
      DropStale(tok, merges, buf, sym, live, queue, b);
    }
  }

  ghost predicate Picked(tok: seq<bytes>, merges: seq<bytes>, buf: bytes, sym: seq<IdSym>, live: seq<nat>,
                         b: Bigram, k: nat)
  {
    && Ascending(live, |sym|) && k + 1 < |live| && live[k] == b.left && live[k + 1] == b.right && Fresh(sym, b)
    && b.rank == IdRank(tok, merges, b.lid, b.rid) >= 0
    && Merged(Words(buf, sym, live), MergeRank(merges)) == Merged(MergeAt(Words(buf, sym, live), k), MergeRank(merges))
  }

  /** Take the first candidate off the queue and tell whether it is outdated. */
  method PopCandidate(ghost tok: seq<bytes>, ghost merges: seq<bytes>, ghost buf: bytes, sym: array<IdSym>,
                      heap: Heap<Bigram>, ghost live: seq<nat>)
    returns (b: Bigram, current: bool, ghost k: nat)
    requires Buildable(tok, merges) && heap.Valid() && heap.before == Before && heap.n > 0
    requires heap.e != sym as object && Inv(tok, merges, buf, sym[..], live, heap.Contents())
    modifies heap`n, heap.e
    ensures heap.Valid() && heap.e == old(heap.e) && heap.n == old(heap.n) - 1
    ensures heap.Contents() == old(heap.Contents()) - multiset{b}
    ensures !current ==> Inv(tok, merges, buf, sym[..], live, heap.Contents())
    ensures current ==> Picked(tok, merges, buf, sym[..], live, b, k)
  {
    ghost var queue := heap.Contents();
    b := heap.Pop();
    k := CandidateFate(tok, merges, buf, sym[..], live, queue, b);
    current := IsCurrent(sym, b);
  }

  /** The test of the loop, on the array. */
  method IsCurrent(sym: array<IdSym>, b: Bigram) returns (current: bool)
    requires b.left < sym.Length && b.right < sym.Length
    ensures current <==> Fresh(sym[..], b)
  {
    current := !(sym[b.left].n == 0 || sym[b.right].n == 0 || sym[b.left].tag != b.lid || sym[b.right].tag != b.rid);
  }

  /** One turn of the loop: either an outdated candidate is dropped or the best pair is merged. */
  method Turn(t: Tables, tok: seq<bytes>, merges: seq<bytes>, buf: bytes, sym: array<IdSym>,
              heap: Heap<Bigram>, ghost live: seq<nat>)
    returns (ghost live': seq<nat>)
    requires t.Built(tok, merges) && Buildable(tok, merges) && |tok| <= I32
    requires heap.Valid() && heap.before == Before && heap.n > 0 && heap.e != sym as object
    requires heap.e != t.pairs.keys as object && heap.e != t.pairs.ranks as object
    requires sym != t.pairs.keys as object && sym != t.pairs.ranks as object
    requires Inv(tok, merges, buf, sym[..], live, heap.Contents())
    modifies sym, heap, heap.e
    ensures heap.Valid() && (heap.e == old(heap.e) || fresh(heap.e))
    ensures |live'| <= |live| && heap.n + 1 + 2 * |live'| <= old(heap.n) + 2 * |live|
    ensures Inv(tok, merges, buf, sym[..], live', heap.Contents())
    ensures Merged(Words(buf, sym[..], live'), MergeRank(merges))
         == Merged(old(Words(buf, sym[..], live)), MergeRank(merges))
  {
    ghost var queue := heap.Contents();
    var b, current, k := PopCandidate(tok, merges, buf, sym, heap, live);
    if current {
      MergePair(t, tok, merges, buf, sym, heap, b, live, queue, k);
      live' := Without(live, k + 1);
    } else {
      live' := live;
    }
  }

  /**
   * Pop candidates until none is left, skipping outdated ones. Whatever the hash function and
   * the heap layout, the symbols end up as the specification says: the lowest-ranked pair
   * first, the leftmost on ties. `popped` counts the candidates taken off; as none is left,
   * it is the number ever queued, no more than 3 * (symbols - 1).
   */
  method MergeLoop(t: Tables, tok: seq<bytes>, merges: seq<bytes>, buf: bytes, sym: array<IdSym>,
                   heap: Heap<Bigram>, ghost live0: seq<nat>)
    returns (ghost live: seq<nat>, ghost popped: nat)
    requires t.Built(tok, merges) && Buildable(tok, merges) && |tok| <= I32
    requires heap.Valid() && heap.before == Before && heap.e != sym as object && heap.n < |live0|
    requires heap.e != t.pairs.keys as object && heap.e != t.pairs.ranks as object
    requires sym != t.pairs.keys as object && sym != t.pairs.ranks as object
    requires Inv(tok, merges, buf, sym[..], live0, heap.Contents())
    modifies sym, heap, heap.e
    ensures Linked(sym[..], live, |buf|) && IdsMatch(tok, buf, sym[..], live)
    ensures Words(buf, sym[..], live) == Merged(old(Words(buf, sym[..], live0)), MergeRank(merges))
    ensures heap.n == 0 && popped <= 3 * (|live0| - 1)
  {
    live, popped := live0, 0;
    while heap.n > 0
      invariant t.Built(tok, merges) && heap.Valid() && (heap.e == old(heap.e) || fresh(heap.e))
      invariant Inv(tok, merges, buf, sym[..], live, heap.Contents())
      invariant Merged(Words(buf, sym[..], live), MergeRank(merges))
             == Merged(old(Words(buf, sym[..], live0)), MergeRank(merges))
      invariant popped + heap.n + 2 * |live| <= 3 * |live0| - 1
      decreases 3 * |live| + heap.n
    {
      live := Turn(t, tok, merges, buf, sym, heap, live);
      popped := popped + 1;
    }
    assert heap.Contents() == multiset{};
    NothingLeft(tok, merges, buf, sym[..], live);
  }

  /** With the queue empty no two neighbours may be joined. */
  lemma NothingLeft(tok: seq<bytes>, merges: seq<bytes>, buf: bytes, sym: seq<IdSym>, live: seq<nat>)
    requires Buildable(tok, merges) && Inv(tok, merges, buf, sym, live, multiset{})
    ensures Merged(Words(buf, sym, live), MergeRank(merges)) == Words(buf, sym, live)
  {
    var ws, rank := Words(buf, sym, live), MergeRank(merges);
    forall j | 0 <= j < |ws| - 1 ensures PairRank(ws, rank, j).None? {
      assert Covered(tok, merges, sym, live, multiset{}, j);
      RankOfPair(tok, merges, buf, sym, live, j);
    }
    MergedDone(ws, rank);
  }
}
