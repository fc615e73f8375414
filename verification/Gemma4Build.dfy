/** sp_g4_build (src/tokenizer/gemma4_bpe.c): merge lines to id-pair ranks, results and byte tokens. */
module Gemma4Build {
  import opened Common
  import opened OpenTable
  import opened Vocab
  import opened Fallback
  import opened MergeLines

  function AllSides(merges: seq<bytes>): (s: seq<Option<(bytes, bytes)>>)
    ensures |s| == |merges|
    ensures forall i | 0 <= i < |s| :: s[i] == Sides(merges[i])
  {
    seq(|merges|, i requires 0 <= i < |merges| => Sides(merges[i]))
  }

  /** The index of the first merge line that joins `a` and `b`, or -1. */
  function LineRank(merges: seq<bytes>, a: bytes, b: bytes): (rank: int)
    ensures -1 <= rank < |merges|
    ensures rank >= 0 ==> Sides(merges[rank]) == Some((a, b))
    ensures forall i | 0 <= i < |merges| && Sides(merges[i]) == Some((a, b)) :: 0 <= rank <= i
  {
    Lookup(AllSides(merges), Some((a, b)))
  }

  /** Ids that spelling lookup can return: the first token with its spelling. */
  predicate Canonical(tok: seq<bytes>, id: int) {
    0 <= id < |tok| && Lookup(tok, tok[id]) == id
  }

  lemma LookupCanonical(tok: seq<bytes>, s: bytes)
    ensures Lookup(tok, s) >= 0 ==> Canonical(tok, Lookup(tok, s)) && tok[Lookup(tok, s)] == s
  {}

  /** Different spellings have different ids, so comparing ids compares symbols. */
  lemma IdIsSpelling(tok: seq<bytes>, a: bytes, b: bytes)
    requires Lookup(tok, a) >= 0
    ensures Lookup(tok, a) == Lookup(tok, b) <==> a == b
  {
    LookupCanonical(tok, a);
    LookupCanonical(tok, b);
  }

  /** A merge line the id-keyed table can represent. */
  predicate Representable(tok: seq<bytes>, line: bytes) {
    match Sides(line)
    case None => true
    case Some((a, b)) => Lookup(tok, a) >= 0 && Lookup(tok, b) >= 0 && Lookup(tok, a + b) >= 0
  }

  /** What the build demands of the vocabulary and the merge lines. */
  ghost predicate Buildable(tok: seq<bytes>, merges: seq<bytes>) {
    && 0 < |merges| <= 0x7FFF_FFFF
    && AllRepresentable(tok, merges)
    && (forall b: nat | b < 256 :: Lookup(tok, ByteName(b)) >= 0)
  }

  function ResultId(tok: seq<bytes>, line: bytes): int {
    match Sides(line)
    case None => -1
    case Some((a, b)) => Lookup(tok, a + b)
  }

  /** What the pair table must answer for a pair of ids. */
  function IdRank(tok: seq<bytes>, merges: seq<bytes>, l: int, r: int): int {
    if Canonical(tok, l) && Canonical(tok, r) then LineRank(merges, tok[l], tok[r]) else -1
  }

  ghost predicate Ranks(m: map<int, int>, tok: seq<bytes>, merges: seq<bytes>) {
    forall l, r {:trigger PairKey(l, r)} | 0 <= l < |tok| && 0 <= r < |tok| ::
      && (PairKey(l, r) in m <==> IdRank(tok, merges, l, r) >= 0)
      && (PairKey(l, r) in m ==> m[PairKey(l, r)] == IdRank(tok, merges, l, r))
  }

  lemma LineRankSnoc(merges: seq<bytes>, i: nat, a: bytes, b: bytes)
    requires i < |merges|
    ensures LineRank(merges[..i + 1], a, b) == if LineRank(merges[..i], a, b) >= 0 then LineRank(merges[..i], a, b)
                                               else if Sides(merges[i]) == Some((a, b)) then i else -1
  {
    LookupSnoc(AllSides(merges), i, Some((a, b)));
    assert AllSides(merges)[..i + 1] == AllSides(merges[..i + 1]);
    assert AllSides(merges)[..i] == AllSides(merges[..i]);
  }

  /** An inert line changes no rank. */
  lemma RanksInert(m: map<int, int>, tok: seq<bytes>, merges: seq<bytes>, i: nat)
    requires i < |merges| && Ranks(m, tok, merges[..i]) && Sides(merges[i]).None?
    ensures Ranks(m, tok, merges[..i + 1])
  {
    forall l, r | 0 <= l < |tok| && 0 <= r < |tok|
      ensures IdRank(tok, merges[..i + 1], l, r) == IdRank(tok, merges[..i], l, r)
    {
      LineRankSnoc(merges, i, tok[l], tok[r]);
    }
  }

  /** Entering a line under its pair of ids, first writer winning, keeps the ranks exact. */
  lemma RanksNext(m: map<int, int>, tok: seq<bytes>, merges: seq<bytes>, i: nat, a: bytes, b: bytes)
    requires i < |merges| && |tok| <= I32 && Ranks(m, tok, merges[..i])
    requires Sides(merges[i]) == Some((a, b)) && Lookup(tok, a) >= 0 && Lookup(tok, b) >= 0
    ensures var key := PairKey(Lookup(tok, a), Lookup(tok, b));
            Ranks(if key in m then m else m[key := i], tok, merges[..i + 1])
  {
    var lid, rid := Lookup(tok, a), Lookup(tok, b);
    var key := PairKey(lid, rid);
    var m' := if key in m then m else m[key := i];
    forall l, r | 0 <= l < |tok| && 0 <= r < |tok|
      ensures (PairKey(l, r) in m' <==> IdRank(tok, merges[..i + 1], l, r) >= 0)
      ensures PairKey(l, r) in m' ==> m'[PairKey(l, r)] == IdRank(tok, merges[..i + 1], l, r)
    {
      LineRankSnoc(merges, i, tok[l], tok[r]);
      PairKeyInjective(l, r, lid, rid);
      assert PairKey(l, r) in m <==> IdRank(tok, merges[..i], l, r) >= 0;
      if l == lid && r == rid {
        LookupCanonical(tok, a);
        LookupCanonical(tok, b);
      } else if Canonical(tok, l) && Canonical(tok, r) {
        assert !(tok[l] == a && tok[r] == b);
      }
    }
  }

  /** The result id of every merge line, and the byte token of every byte value. */
  ghost predicate Results(result: seq<int>, tok: seq<bytes>, merges: seq<bytes>) {
    |result| == |merges| && forall i | 0 <= i < |merges| :: result[i] == ResultId(tok, merges[i])
  }

  lemma ResultsSnoc(result: seq<int>, tok: seq<bytes>, merges: seq<bytes>, i: nat)
    requires i < |merges| && Results(result, tok, merges[..i])
    ensures Results(result + [ResultId(tok, merges[i])], tok, merges[..i + 1])
  {}

  /**
   * After a build a pair's rank is the least merge line that spells it and the result spells the
   * concatenation; a canonical pair without rank is spelled by no line.
   */
  lemma RankIsLeastLine(m: map<int, int>, result: seq<int>, tok: seq<bytes>, merges: seq<bytes>, l: nat, r: nat)
    requires Ranks(m, tok, merges) && Results(result, tok, merges) && AllRepresentable(tok, merges)
    requires l < |tok| && r < |tok|
    ensures PairKey(l, r) in m ==>
              var k := m[PairKey(l, r)];
              && 0 <= k < |merges| && Sides(merges[k]) == Some((tok[l], tok[r]))
              && (forall i | 0 <= i < k :: Sides(merges[i]) != Some((tok[l], tok[r])))
              && 0 <= result[k] < |tok| && tok[result[k]] == tok[l] + tok[r]
    ensures PairKey(l, r) !in m && Canonical(tok, l) && Canonical(tok, r) ==>
              forall i | 0 <= i < |merges| :: Sides(merges[i]) != Some((tok[l], tok[r]))
  {
    if PairKey(l, r) in m {
      var k := m[PairKey(l, r)];
      assert Representable(tok, merges[k]);
      LookupCanonical(tok, tok[l] + tok[r]);
    }
  }

  ghost predicate AllRepresentable(tok: seq<bytes>, merges: seq<bytes>) {
    forall i | 0 <= i < |merges| :: Representable(tok, merges[i])
  }

  lemma RepresentableSnoc(tok: seq<bytes>, merges: seq<bytes>, i: nat)
    requires i < |merges|
    ensures AllRepresentable(tok, merges[..i + 1])
       <==> AllRepresentable(tok, merges[..i]) && Representable(tok, merges[i])
    ensures AllRepresentable(tok, merges) ==> Representable(tok, merges[i])
  {
    var p, q := merges[..i], merges[..i + 1];
    assert q[i] == merges[i];
    assert forall j | 0 <= j < i :: q[j] == p[j];
  }

  /** The tables of a built gemma4 tokenizer. */
  class Tables {
    const pairs: PairTable
    const result: seq<int>
    const byteTok: seq<int>

    constructor (pairs: PairTable, result: seq<int>, byteTok: seq<int>)
      ensures this.pairs == pairs && this.result == result && this.byteTok == byteTok
    {
      this.pairs, this.result, this.byteTok := pairs, result, byteTok;
    }

    ghost predicate Built(tok: seq<bytes>, merges: seq<bytes>)
      reads pairs, pairs.keys, pairs.ranks
    {
      && pairs.Valid() && Ranks(pairs.m, tok, merges)
      && Results(result, tok, merges) && ByteTokens(byteTok, tok)
    }
  }

  /** One merge line: its result id (-1 when inert), or failure when the vocabulary lacks a piece. */
  method AddLine(tok: seq<bytes>, vocab: StringMap, merges: seq<bytes>, i: nat, pairs: PairTable)
    returns (ok: bool, res: int)
    requires vocab.Valid() && Indexes(vocab.m, tok) && |tok| <= I32 && i < |merges|
    requires vocab.e != pairs.keys as object && vocab.e != pairs.ranks as object
    requires pairs.Valid() && |pairs.m| + 1 < pairs.keys.Length && Ranks(pairs.m, tok, merges[..i])
    modifies pairs`m, pairs.keys, pairs.ranks
    ensures pairs.Valid() && pairs.keys == old(pairs.keys) && pairs.ranks == old(pairs.ranks)
    ensures |pairs.m| <= |old(pairs.m)| + 1
    ensures ok <==> Representable(tok, merges[i])
    ensures ok ==> res == ResultId(tok, merges[i]) && Ranks(pairs.m, tok, merges[..i + 1])
  {
    var line := merges[i];
    var sp := FindSplit(line);
    if sp == 0 || sp + 1 >= |line| {
      RanksInert(pairs.m, tok, merges, i);
      return true, -1;
    }
    var a, b := line[..sp], line[sp + 1..];
    var lid := vocab.Get(a, -1);
    var rid := vocab.Get(b, -1);
    if lid < 0 || rid < 0 { return false, -1; }
    res := vocab.Get(a + b, -1);
    if res < 0 { return false, -1; }
    ok := true;
    AddRank(tok, merges, i, pairs, a, b, lid, rid);
  }

  /** Enter the number of a line under the ids of its sides. */
  method AddRank(ghost tok: seq<bytes>, ghost merges: seq<bytes>, i: nat, pairs: PairTable,
                 ghost a: bytes, ghost b: bytes, lid: nat, rid: nat)
    requires |tok| <= I32 && i < |merges| && Sides(merges[i]) == Some((a, b))
    requires lid == Lookup(tok, a) && rid == Lookup(tok, b)
    requires pairs.Valid() && |pairs.m| + 1 < pairs.keys.Length && Ranks(pairs.m, tok, merges[..i])
    modifies pairs`m, pairs.keys, pairs.ranks
    ensures pairs.Valid() && pairs.keys == old(pairs.keys) && pairs.ranks == old(pairs.ranks)
    ensures |pairs.m| <= |old(pairs.m)| + 1 && Ranks(pairs.m, tok, merges[..i + 1])
  {
    RanksNext(pairs.m, tok, merges, i, a, b);
    PairKeyInjective(lid, rid, lid, rid);
    pairs.Put(PairKey(lid, rid), i);
  }

  /** All merge lines in order, up to the first one the vocabulary cannot represent. */
  method AddLines(tok: seq<bytes>, vocab: StringMap, merges: seq<bytes>, pairs: PairTable)
    returns (ok: bool, result: seq<int>)
    requires vocab.Valid() && Indexes(vocab.m, tok) && |tok| <= I32
    requires vocab.e != pairs.keys as object && vocab.e != pairs.ranks as object
    requires pairs.Valid() && pairs.m == map[] && pairs.keys.Length >= 2 * |merges| && pairs.keys.Length >= 16
    modifies pairs`m, pairs.keys, pairs.ranks
    ensures pairs.Valid()
    ensures ok <==> AllRepresentable(tok, merges)
    ensures ok ==> Ranks(pairs.m, tok, merges) && Results(result, tok, merges)
  {
    result := [];
    for i := 0 to |merges|
      invariant pairs.Valid() && pairs.keys == old(pairs.keys) && pairs.ranks == old(pairs.ranks)
      invariant |pairs.m| <= i && Ranks(pairs.m, tok, merges[..i])
      invariant AllRepresentable(tok, merges[..i]) && Results(result, tok, merges[..i])
      invariant vocab.Valid()
    {
      RepresentableSnoc(tok, merges, i);
      ResultsSnoc(result, tok, merges, i);
      var added, res := AddLine(tok, vocab, merges, i, pairs);
      if !added { return false, []; }
      result := result + [res];
    }
    assert merges[..|merges|] == merges;
    ok := true;
  }

  /**
   * Build the tables, or refuse: it succeeds exactly when the merge count is in range, every
   * line that is not inert resolves in the vocabulary, and all 256 byte tokens exist.
   */
  method Build(tok: seq<bytes>, vocab: StringMap, merges: seq<bytes>, hash: int -> nat)
    returns (t: Tables?)
    requires vocab.Valid() && Indexes(vocab.m, tok) && |tok| <= I32
    ensures t != null <==> Buildable(tok, merges)
    ensures t != null ==> t.Built(tok, merges)
  {
    if |merges| == 0 || |merges| > 0x7FFF_FFFF { return null; }
    var pairs := new PairTable(hash, |merges|);
    var ok, result := AddLines(tok, vocab, merges, pairs);
    if !ok { return null; }
    var byteTok;
    ok, byteTok := FillByteTokens(tok, vocab);
    if !ok { return null; }
    t := new Tables(pairs, result, byteTok);
  }
}
