/** The GPT2 lane: bpe_piece, encode_text, decoding and the round trip (src/tokenizer/tokenizer.c). */
module Gpt2 {
  import opened Common
  import opened OpenTable
  import opened Vocab
  import opened MergeSpec
  import opened MergeLaw
  import opened MergeChain
  import opened Text
  import opened Gpt2Bytes
  import PreTokenizer

  /** Joining two symbols: the index of the merge line "a b". */
  function KeyRank(lines: seq<bytes>): Rank {
    (a: bytes, b: bytes) => var i := Lookup(lines, a + [SPACE] + b); if i < 0 then None else Some(i as real)
  }

  /** A merge line of two symbols and a space between them. */
  predicate KeyLine(l: bytes, a: bytes, b: bytes) { l == a + [0x20] + b }

  /** The rank is the number of the first such line. */
  lemma KeyRanksByLine(lines: seq<bytes>)
    ensures RanksByLine(KeyLine, lines, KeyRank(lines))
  {
    var rank := KeyRank(lines);
    forall a: bytes, b: bytes {:trigger rank(a, b)} ensures RanksPair(KeyLine, lines, rank(a, b), a, b) {
      var i := Lookup(lines, a + [SPACE] + b);
      if i >= 0 { assert FirstJoining(KeyLine, lines, i, a, b); }
    }
  }

  /** One symbol per source byte. */
  function ByteSymbols(rb: bytes): (ws: seq<bytes>)
    ensures |ws| == |rb| && forall i | 0 <= i < |rb| :: ws[i] == Encoded(rb[i])
  {
    seq(|rb|, i requires 0 <= i < |rb| => Encoded(rb[i]))
  }

  lemma {:induction false} SymbolsSpell(rb: bytes)
    ensures Flatten(ByteSymbols(rb)) == Spelling(rb)
  {
    if rb != [] {
      assert ByteSymbols(rb)[1..] == ByteSymbols(rb[1..]);
      SymbolsSpell(rb[1..]);
    }
  }

  /** The symbols of one piece: fully merged, lowest-numbered merge line first. */
  function PieceWords(lines: seq<bytes>, rb: bytes): seq<bytes> { Merged(ByteSymbols(rb), KeyRank(lines)) }

  predicate Known(tok: seq<bytes>, ws: seq<bytes>) { forall w | w in ws :: Lookup(tok, w) >= 0 }

  function Ids(tok: seq<bytes>, ws: seq<bytes>): (ids: seq<int>)
    ensures |ids| == |ws|
  {
    seq(|ws|, i requires 0 <= i < |ws| => Lookup(tok, ws[i]))
  }

  // ---- the in-place merge loop ----

  /** `ns` symbols, given by offset and length, tile the text. */
  ghost predicate Tiles(text: bytes, off: seq<nat>, len: seq<nat>, ns: nat) {
    && ns <= |off| && |off| == |len|
    && (forall i | 0 <= i < ns :: off[i] + len[i] <= |text|)
    && (forall i | 0 <= i < ns - 1 :: off[i] + len[i] == off[i + 1])
  }

  ghost function Symbols(text: bytes, off: seq<nat>, len: seq<nat>, ns: nat): (ws: seq<bytes>)
    requires Tiles(text, off, len, ns)
    ensures |ws| == ns && forall i | 0 <= i < ns :: ws[i] == text[off[i]..off[i] + len[i]]
  {
    seq(ns, i requires 0 <= i < ns => text[off[i]..off[i] + len[i]])
  }

  /** `a'` is `a` with the entries after `k` moved left by one, closing the gap at k + 1. */
  ghost predicate Shifted(a: seq<nat>, a': seq<nat>, ns: nat, k: nat) {
    && k + 1 < ns <= |a| == |a'|
    && (forall i | 0 <= i <= k :: a'[i] == a[i])
    && (forall i | k < i < ns - 1 :: a'[i] == a[i + 1])
  }

  lemma ShiftMerges(text: bytes, off: seq<nat>, len: seq<nat>, off': seq<nat>, len': seq<nat>, ns: nat, k: nat)
    requires Tiles(text, off, len, ns) && k + 1 < ns
    requires Shifted(off, off', ns, k) && Shifted(len[k := len[k] + len[k + 1]], len', ns, k)
    ensures Tiles(text, off', len', ns - 1)
    ensures Symbols(text, off', len', ns - 1) == MergeAt(Symbols(text, off, len, ns), k)
  {
    var m := ns - 1;
    assert off[k] + len[k] == off[k + 1];
    forall i | 0 <= i < m ensures off'[i] + len'[i] <= |text| {
      if i >= k { assert off[i + 1] + len[i + 1] <= |text|; }
    }
    forall i | 0 <= i < m - 1 ensures off'[i] + len'[i] == off'[i + 1] {
      if i >= k { assert off[i + 1] + len[i + 1] == off[i + 2]; }
    }
    ShiftedSymbols(text, off, len, off', len', ns, k);
  }

  lemma ShiftedSymbols(text: bytes, off: seq<nat>, len: seq<nat>, off': seq<nat>, len': seq<nat>, ns: nat, k: nat)
    requires Tiles(text, off, len, ns) && k + 1 < ns && Tiles(text, off', len', ns - 1)
    requires (forall i | 0 <= i <= k :: off'[i] == off[i]) && (forall i | k < i < ns - 1 :: off'[i] == off[i + 1])
    requires len'[k] == len[k] + len[k + 1]
    requires (forall i | 0 <= i < k :: len'[i] == len[i]) && (forall i | k < i < ns - 1 :: len'[i] == len[i + 1])
    ensures Symbols(text, off', len', ns - 1) == MergeAt(Symbols(text, off, len, ns), k)
  {
    var ws, ws' := Symbols(text, off, len, ns), Symbols(text, off', len', ns - 1);
    JoinedSlice(text, off, len, ns, k);
    assert ws'[k] == ws[k] + ws[k + 1];
    forall i | 0 <= i < k ensures ws'[i] == ws[i] {
      SameSlice(text, off, len, off', len', i, i);
    }
    forall i | k < i < ns - 1 ensures ws'[i] == ws[i + 1] {
      SameSlice(text, off, len, off', len', i + 1, i);
    }
    MergeAtIs(ws, ws', k);
  }

  lemma JoinedSlice(text: bytes, off: seq<nat>, len: seq<nat>, ns: nat, k: nat)
    requires Tiles(text, off, len, ns) && k + 1 < ns
    ensures off[k] + len[k] == off[k + 1] && off[k + 1] + len[k + 1] <= |text|
    ensures text[off[k]..off[k] + len[k]] + text[off[k + 1]..off[k + 1] + len[k + 1]]
         == text[off[k]..off[k] + (len[k] + len[k + 1])]
  {
    assert off[k] + len[k] == off[k + 1] && off[k + 1] + len[k + 1] <= |text|;
    JoinSlices(text, off[k], off[k + 1], off[k + 1] + len[k + 1]);
  }

  lemma SameSlice(text: bytes, off: seq<nat>, len: seq<nat>, off': seq<nat>, len': seq<nat>, i: nat, j: nat)
    requires i < |off| && i < |len| && j < |off'| && j < |len'|
    requires off[i] + len[i] <= |text| && off'[j] == off[i] && len'[j] == len[i]
    ensures text[off'[j]..off'[j] + len'[j]] == text[off[i]..off[i] + len[i]]
  {}

  lemma MergeAtIs(ws: seq<bytes>, ws': seq<bytes>, k: nat)
    requires k + 1 < |ws| == |ws'| + 1 && ws'[k] == ws[k] + ws[k + 1]
    requires forall i | 0 <= i < k :: ws'[i] == ws[i]
    requires forall i | k < i < |ws'| :: ws'[i] == ws[i + 1]
    ensures ws' == MergeAt(ws, k)
  {}

  lemma JoinSlices(text: bytes, a: nat, b: nat, c: nat)
    requires a <= b <= c <= |text|
    ensures text[a..b] + text[b..c] == text[a..c]
  {}

  /** Move the entries after `k` left by one. */
  method ShiftLeft(a: array<nat>, ns: nat, k: nat)
    requires k + 1 < ns <= a.Length
    modifies a
    ensures Shifted(old(a[..]), a[..], ns, k)
  {
    for j := k + 1 to ns - 1
      invariant forall i | 0 <= i <= k :: a[i] == old(a[i])
      invariant forall i | k < i < j :: a[i] == old(a[i + 1])
      invariant forall i | j <= i < a.Length :: a[i] == old(a[i])
    {
      a[j] := a[j + 1];
    }
  }

  /** Join symbols k and k + 1 and close the gap. */
  method JoinAt(ghost text: bytes, off: array<nat>, len: array<nat>, ns: nat, k: nat)
    requires off != len && Tiles(text, off[..], len[..], ns) && k + 1 < ns
    modifies off, len
    ensures Tiles(text, off[..], len[..], ns - 1)
    ensures Symbols(text, off[..], len[..], ns - 1) == MergeAt(old(Symbols(text, off[..], len[..], ns)), k)
  {
    ghost var off0, len0 := off[..], len[..];
    len[k] := len[k] + len[k + 1];
    assert len[..] == len0[k := len0[k] + len0[k + 1]];
    ShiftLeft(off, ns, k);
    ShiftLeft(len, ns, k);
    ShiftMerges(text, off0, len0, off[..], len[..], ns, k);
  }

  /** The best of the first i pairs as the loop keeps it: its rank, or -1, and its position. */
  ghost predicate BestSoFar(ws: seq<bytes>, rank: Rank, i: nat, best: int, bi: nat) {
    && (i < |ws| || i == 0)
    && (best < 0 ==> forall j | 0 <= j < i :: PairRank(ws, rank, j).None?)
    && (best >= 0 ==> bi < i && PairRank(ws, rank, bi) == Some(best as real))
    && (best >= 0 ==> forall j | 0 <= j < i :: Beats(ws, rank, bi, j))
  }

  lemma BestNext(ws: seq<bytes>, rank: Rank, i: nat, best: int, bi: nat, r: int)
    requires i + 1 < |ws| && BestSoFar(ws, rank, i, best, bi)
    requires PairRank(ws, rank, i) == if r < 0 then None else Some(r as real)
    ensures if r >= 0 && (best < 0 || r < best) then BestSoFar(ws, rank, i + 1, r, i)
            else BestSoFar(ws, rank, i + 1, best, bi)
  {
    if r >= 0 && best >= 0 && r < best { NewBest(ws, rank, bi, i); }
  }

  /** The number of the merge line that joins two symbols: the key is built with a space between them. */
  method LineOf(merge: StringMap, lines: seq<bytes>, a: bytes, b: bytes) returns (r: int)
    requires merge.Valid() && Indexes(merge.m, lines)
    ensures KeyRank(lines)(a, b) == if r < 0 then None else Some(r as real)
  {
    r := merge.Get(a + [SPACE] + b, -1);
  }

  method RankAt(merge: StringMap, lines: seq<bytes>, text: bytes, off: array<nat>, len: array<nat>, ns: nat, i: nat)
    returns (r: int)
    requires merge.Valid() && Indexes(merge.m, lines)
    requires Tiles(text, off[..], len[..], ns) && i + 1 < ns
    ensures PairRank(Symbols(text, off[..], len[..], ns), KeyRank(lines), i) == if r < 0 then None else Some(r as real)
  {
    r := LineOf(merge, lines, text[off[i]..off[i] + len[i]], text[off[i + 1]..off[i + 1] + len[i + 1]]);
  }

  /** One scan over the neighbouring pairs: the lowest rank, the first of equals. */
  method FindBest(merge: StringMap, lines: seq<bytes>, text: bytes, off: array<nat>, len: array<nat>, ns: nat)
    returns (best: int, bi: nat)
    requires merge.Valid() && Indexes(merge.m, lines)
    requires Tiles(text, off[..], len[..], ns) && ns > 1
    ensures Best(Symbols(text, off[..], len[..], ns), KeyRank(lines)) == if best < 0 then None else Some(bi)
    ensures best >= 0 ==> bi + 1 < ns && IsNextByLine(KeyLine, lines, Symbols(text, off[..], len[..], ns), bi, best)
    ensures best < 0 ==> NothingToJoin(KeyLine, lines, Symbols(text, off[..], len[..], ns))
  {
    ghost var ws, rank := Symbols(text, off[..], len[..], ns), KeyRank(lines);
    best, bi := ScanPairs(merge, lines, text, off, len, ns, ws, rank);
    BestFound(ws, rank, best, bi);
    FoundByLine(lines, ws, best, bi);
  }

  lemma FoundByLine(lines: seq<bytes>, ws: seq<bytes>, best: int, bi: nat)
    requires |ws| > 0 && BestSoFar(ws, KeyRank(lines), |ws| - 1, best, bi)
    ensures best >= 0 ==> IsNextByLine(KeyLine, lines, ws, bi, best)
    ensures best < 0 ==> NothingToJoin(KeyLine, lines, ws)
  {
    var rank := KeyRank(lines);
    KeyRanksByLine(lines);
    if best >= 0 {
      var i := BestIsFirstLine(KeyLine, lines, rank, ws, bi);
      assert JoinedBy(KeyLine, lines, i, ws, bi);
      SameLine(lines, ws, bi, i, best);
    } else {
      UnrankedByLine(KeyLine, lines, rank, ws);
    }
  }

  lemma SameLine(lines: seq<bytes>, ws: seq<bytes>, k: nat, i: nat, best: nat)
    requires IsNextByLine(KeyLine, lines, ws, k, i) && PairRank(ws, KeyRank(lines), k) == Some(best as real)
    ensures i == best
  {
    var found := Lookup(lines, ws[k] + [SPACE] + ws[k + 1]);
    assert JoinedBy(KeyLine, lines, found, ws, k);
  }

  lemma BestStarts(ws: seq<bytes>, rank: Rank)
    ensures BestSoFar(ws, rank, 0, -1, 0)
  {}

  method ScanPairs(merge: StringMap, lines: seq<bytes>, text: bytes, off: array<nat>, len: array<nat>, ns: nat,
                   ghost ws: seq<bytes>, ghost rank: Rank) returns (best: int, bi: nat)
    requires merge.Valid() && Indexes(merge.m, lines) && Tiles(text, off[..], len[..], ns) && ns > 1
    requires ws == Symbols(text, off[..], len[..], ns) && rank == KeyRank(lines)
    ensures BestSoFar(ws, rank, ns - 1, best, bi)
  {
    best, bi := -1, 0;
    BestStarts(ws, rank);
    for i := 0 to ns - 1
      invariant BestSoFar(ws, rank, i, best, bi)
    {
      best, bi := Consider(merge, lines, text, off, len, ns, i, best, bi, ws, rank);
    }
  }

  lemma BestFound(ws: seq<bytes>, rank: Rank, best: int, bi: nat)
    requires |ws| > 0 && BestSoFar(ws, rank, |ws| - 1, best, bi)
    ensures Best(ws, rank) == if best < 0 then None else Some(bi)
    ensures best >= 0 ==> bi + 1 < |ws|
  {
    var found := Best(ws, rank);
    if best >= 0 {
      assert IsBest(ws, rank, bi) && Beats(ws, rank, bi, bi);
      BestIsUnique(ws, rank, bi, found.value);
    } else {
      BestIsRanked(ws, rank);
    }
  }

  lemma BestIsRanked(ws: seq<bytes>, rank: Rank)
    ensures Best(ws, rank).Some? ==> PairRank(ws, rank, Best(ws, rank).value).Some?
  {
    var best := Best(ws, rank);
    assert best.Some? ==> Beats(ws, rank, best.value, best.value);
  }

  /** Compare one more pair with the best so far. */
  method Consider(merge: StringMap, lines: seq<bytes>, text: bytes, off: array<nat>, len: array<nat>, ns: nat, i: nat,
                  best: int, bi: nat, ghost ws: seq<bytes>, ghost rank: Rank) returns (best': int, bi': nat)
    requires merge.Valid() && Indexes(merge.m, lines) && Tiles(text, off[..], len[..], ns) && i + 1 < ns
    requires ws == Symbols(text, off[..], len[..], ns) && rank == KeyRank(lines)
    requires BestSoFar(ws, rank, i, best, bi)
    ensures BestSoFar(ws, rank, i + 1, best', bi')
  {
    var r := RankAt(merge, lines, text, off, len, ns, i);
    BestNext(ws, rank, i, best, bi, r);
    if r >= 0 && (best < 0 || r < best) { best', bi' := r, i; } else { best', bi' := best, bi; }
  }

  /** The merge loop computes the specification of the heap-driven lanes, by rescanning. */
  method MergeSymbols(merge: StringMap, lines: seq<bytes>, text: bytes, off: array<nat>, len: array<nat>, ns0: nat)
    returns (ns: nat)
    requires merge.Valid() && Indexes(merge.m, lines) && off != len
    requires off != merge.e as object && len != merge.e as object
    requires Tiles(text, off[..], len[..], ns0)
    modifies off, len
    ensures Tiles(text, off[..], len[..], ns)
    ensures Symbols(text, off[..], len[..], ns) == Merged(old(Symbols(text, off[..], len[..], ns0)), KeyRank(lines))
  {
    ns := ns0;
    ghost var rank, goal := KeyRank(lines), Merged(Symbols(text, off[..], len[..], ns0), KeyRank(lines));
    while ns > 1
      invariant merge.Valid() && Tiles(text, off[..], len[..], ns)
      invariant Merged(Symbols(text, off[..], len[..], ns), rank) == goal
    {
      var best, bi := FindBest(merge, lines, text, off, len, ns);
      if best < 0 { return; }
      JoinAt(text, off, len, ns, bi);
      ns := ns - 1;
    }
    MergedDone(Symbols(text, off[..], len[..], ns), rank);
  }

  // ---- one piece ----

  /** The byte-level buffers after `n` source bytes. */
  ghost predicate Filling(rb: bytes, n: nat, enc: seq<byte>, ne: nat, off: seq<nat>, len: seq<nat>) {
    && n <= |rb| && ne <= |enc| && ne <= 2 * n && Tiles(enc[..ne], off, len, n)
    && (n > 0 ==> off[n - 1] + len[n - 1] == ne)
    && (forall i | 0 <= i < n :: SpelledAt(rb, enc, off, len, i))
  }

  ghost predicate SpelledAt(rb: bytes, enc: seq<byte>, off: seq<nat>, len: seq<nat>, i: nat)
    requires i < |rb| && i < |off| && i < |len|
  {
    off[i] + len[i] <= |enc| && enc[off[i]..off[i] + len[i]] == Encoded(rb[i])
  }

  lemma TilesNext(text: bytes, text': bytes, off: seq<nat>, len: seq<nat>, n: nat, w: nat)
    requires Tiles(text, off, len, n) && n < |off| && (n > 0 ==> off[n - 1] + len[n - 1] == |text|)
    requires |text'| == |text| + w
    ensures Tiles(text', off[n := |text|], len[n := w], n + 1)
  {}

  lemma KeptSlice(enc: seq<byte>, enc': seq<byte>, ne: nat, a: nat, b: nat)
    requires a <= b <= ne <= |enc| && ne <= |enc'| && enc'[..ne] == enc[..ne]
    ensures enc'[a..b] == enc[a..b]
  {
    SliceOfTake(enc', ne, a, b);
    SliceOfTake(enc, ne, a, b);
  }

  lemma FillingNext(rb: bytes, n: nat, enc: seq<byte>, ne: nat, off: seq<nat>, len: seq<nat>, enc': seq<byte>, e: bytes)
    requires Filling(rb, n, enc, ne, off, len) && n < |rb| && n < |off| && |enc'| == |enc|
    requires e == Encoded(rb[n]) && |e| <= 2 && ne + |e| <= |enc|
    requires enc'[..ne] == enc[..ne] && enc'[ne..ne + |e|] == e
    ensures Filling(rb, n + 1, enc', ne + |e|, off[n := ne], len[n := |e|])
  {
    var off', len' := off[n := ne], len[n := |e|];
    TilesNext(enc[..ne], enc'[..ne + |e|], off, len, n, |e|);
    forall i | 0 <= i < n + 1 ensures SpelledAt(rb, enc', off', len', i) {
      if i < n {
        assert SpelledAt(rb, enc, off, len, i);
        TileInside(enc[..ne], off, len, n, i);
        KeptSlice(enc, enc', ne, off[i], off[i] + len[i]);
      }
    }
  }

  lemma TileInside(text: bytes, off: seq<nat>, len: seq<nat>, n: nat, i: nat)
    requires Tiles(text, off, len, n) && i < n
    ensures off[i] + len[i] <= |text|
  {}

  lemma FillingDone(rb: bytes, enc: seq<byte>, ne: nat, off: seq<nat>, len: seq<nat>)
    requires Filling(rb, |rb|, enc, ne, off, len)
    ensures Symbols(enc[..ne], off, len, |rb|) == ByteSymbols(rb)
  {
    forall i | 0 <= i < |rb| ensures Symbols(enc[..ne], off, len, |rb|)[i] == Encoded(rb[i]) {
      assert SpelledAt(rb, enc, off, len, i);
      TileInside(enc[..ne], off, len, |rb|, i);
      SliceOfTake(enc, ne, off[i], off[i] + len[i]);
    }
  }

  lemma SliceOfTake(enc: seq<byte>, ne: nat, a: nat, b: nat)
    requires a <= b <= ne <= |enc|
    ensures enc[..ne][a..b] == enc[a..b]
  {}

  /** The symbol of one more byte. */
  method PutSymbol(ghost rb: bytes, i: nat, enc: array<byte>, ne: nat, off: array<nat>, len: array<nat>, e: bytes)
    requires i < |rb| && i < off.Length && off != len && e == Encoded(rb[i]) && ne + |e| <= enc.Length
    requires Filling(rb, i, enc[..], ne, off[..], len[..])
    modifies enc, off, len
    ensures Filling(rb, i + 1, enc[..], ne + |e|, off[..], len[..])
  {
    ghost var enc0, off0, len0 := enc[..], off[..], len[..];
    PutBytes(enc, ne, e);
    off[i], len[i] := ne, |e|;
    assert off[..] == off0[i := off[i]] && len[..] == len0[i := len[i]];
    FillingNext(rb, i, enc0, ne, off0, len0, enc[..], e);
  }

  /** Byte-level encode a piece: one symbol per byte; buffers of twice the piece are never overrun. */
  method EncodeBytes(bcp: seq<bytes>, rb: bytes) returns (text: bytes, off: array<nat>, len: array<nat>)
    requires |bcp| == 256 && forall b: byte :: bcp[b] == Encoded(b)
    ensures fresh(off) && fresh(len) && off != len
    ensures Tiles(text, off[..], len[..], |rb|) && Symbols(text, off[..], len[..], |rb|) == ByteSymbols(rb)
  {
    var enc := new byte[2 * |rb| + 8];
    off, len := new nat[|rb| + 1], new nat[|rb| + 1];
    var ne: nat := 0;
    for i := 0 to |rb|
      invariant Filling(rb, i, enc[..], ne, off[..], len[..])
    {
      PutSymbol(rb, i, enc, ne, off, len, bcp[rb[i]]);
      ne := ne + |bcp[rb[i]]|;
    }
    text := enc[..ne];
    FillingDone(rb, enc[..], ne, off[..], len[..]);
  }

  method PutBytes(enc: array<byte>, ne: nat, e: bytes)
    requires ne + |e| <= enc.Length
    modifies enc
    ensures enc[..ne] == old(enc[..ne]) && enc[ne..ne + |e|] == e
  {
    for j := 0 to |e|
      invariant enc[..ne] == old(enc[..ne]) && enc[ne..ne + j] == e[..j]
    {
      enc[ne + j] := e[j];
    }
  }

  lemma KnownSnoc(tok: seq<bytes>, ws: seq<bytes>, i: nat)
    requires i < |ws|
    ensures Ids(tok, ws[..i + 1]) == Ids(tok, ws[..i]) + [Lookup(tok, ws[i])]
  {}

  /** bpe_piece: fails exactly when some final symbol is not in the vocabulary. */
  method BpePiece(vocab: StringMap, merge: StringMap, tok: seq<bytes>, lines: seq<bytes>, bcp: seq<bytes>,
                  rb: bytes, sink: Sink) returns (ok: bool)
    requires vocab.Valid() && Indexes(vocab.m, tok) && merge.Valid() && Indexes(merge.m, lines)
    requires |bcp| == 256 && forall b: byte :: bcp[b] == Encoded(b)
    requires sink.Valid()
    requires sink.out != vocab.e as object && sink.out != merge.e as object
    modifies sink, sink.out
    ensures sink.Valid()
    ensures ok <==> Known(tok, PieceWords(lines, rb))
    ensures ok ==> sink.ids == old(sink.ids) + Ids(tok, PieceWords(lines, rb))
  {
    var text, off, len := EncodeBytes(bcp, rb);
    var ns := MergeSymbols(merge, lines, text, off, len, |rb|);
    ok := EmitWords(vocab, tok, text, off[..], len[..], ns, sink);
  }

  method EmitWords(vocab: StringMap, tok: seq<bytes>, text: bytes, off: seq<nat>, len: seq<nat>, ns: nat, sink: Sink)
    returns (ok: bool)
    requires vocab.Valid() && Indexes(vocab.m, tok) && Tiles(text, off, len, ns)
    requires sink.Valid() && sink.out != vocab.e as object
    modifies sink, sink.out
    ensures sink.Valid()
    ensures ok <==> Known(tok, Symbols(text, off, len, ns))
    ensures ok ==> sink.ids == old(sink.ids) + Ids(tok, Symbols(text, off, len, ns))
  {
    ghost var ws, base := Symbols(text, off, len, ns), sink.ids;
    for i := 0 to ns
      invariant sink.Valid() && sink.ids == base + Ids(tok, ws[..i])
      invariant KnownUpTo(tok, ws, i)
      modifies sink, sink.out
    {
      IdsNext(tok, ws, i, base);
      ok := EmitWord(vocab, tok, text[off[i]..off[i] + len[i]], sink);
      KnownNext(tok, ws, i);
      if !ok { return; }
    }
    KnownAll(tok, ws);
    return true;
  }

  predicate KnownUpTo(tok: seq<bytes>, ws: seq<bytes>, i: nat)
    requires i <= |ws|
  {
    forall j | 0 <= j < i :: Lookup(tok, ws[j]) >= 0
  }

  lemma KnownNext(tok: seq<bytes>, ws: seq<bytes>, i: nat)
    requires i < |ws| && KnownUpTo(tok, ws, i)
    ensures if Lookup(tok, ws[i]) >= 0 then KnownUpTo(tok, ws, i + 1) else !Known(tok, ws)
  {
    assert ws[i] in ws;
  }

  lemma KnownAll(tok: seq<bytes>, ws: seq<bytes>)
    requires KnownUpTo(tok, ws, |ws|)
    ensures Known(tok, ws) && ws[..|ws|] == ws
  {}

  lemma IdsNext(tok: seq<bytes>, ws: seq<bytes>, i: nat, base: seq<int>)
    requires i < |ws|
    ensures base + Ids(tok, ws[..i + 1]) == base + Ids(tok, ws[..i]) + [Lookup(tok, ws[i])]
  {
    KnownSnoc(tok, ws, i);
    Assoc(base, Ids(tok, ws[..i]), [Lookup(tok, ws[i])]);
  }

  method EmitWord(vocab: StringMap, tok: seq<bytes>, w: bytes, sink: Sink) returns (known: bool)
    requires vocab.Valid() && Indexes(vocab.m, tok) && sink.Valid() && sink.out != vocab.e as object
    modifies sink, sink.out
    ensures vocab.Valid() && sink.Valid() && (known <==> Lookup(tok, w) >= 0)
    ensures known ==> sink.ids == old(sink.ids) + [Lookup(tok, w)]
  {
    var id := vocab.Get(w, -1);
    known := id >= 0;
    if known { sink.Emit(id); }
  }

  // ---- a whole text ----

  /** The codepoints of s[o..], each with its offset. */
  function Codepoints(s: bytes, o: nat): (cps: seq<(int, nat)>)
    requires o <= |s|
    ensures forall i | 0 <= i < |cps| :: o <= cps[i].1 < |s|
    ensures forall i, j | 0 <= i < j < |cps| :: cps[i].1 < cps[j].1
    ensures o < |s| ==> cps != [] && cps[0].1 == o
    ensures o == |s| ==> cps == []
    decreases |s| - o
  {
    if o == |s| then [] else
    var (cp, n) := CpDecode(s[o..]);
    [(cp, o)] + Codepoints(s, o + n)
  }

  function Values(cps: seq<(int, nat)>): (r: seq<int>)
    ensures |r| == |cps| && forall i | 0 <= i < |r| :: r[i] == cps[i].0
  {
    seq(|cps|, i requires 0 <= i < |cps| => cps[i].0)
  }

  /** Where codepoint `i` starts in a text of `total` bytes; past the last one, the end. */
  function Offset(cps: seq<(int, nat)>, total: nat, i: nat): nat { if i < |cps| then cps[i].1 else total }

  /** The pieces of a text from codepoint `i` on, as byte strings. */
  function Pieces(u: PreTokenizer.Unicode, s: bytes, cps: seq<(int, nat)>, i: nat): seq<bytes>
    requires PreTokenizer.Usable(u) && cps == Codepoints(s, 0)
    decreases |cps| - i
  {
    if i >= |cps| then [] else
    PreTokenizer.QwenProgress(u, Values(cps), i);
    var e := PreTokenizer.Match(u, PreTokenizer.QWEN2, Values(cps), i).value;
    [s[Offset(cps, |s|, i)..Offset(cps, |s|, e)]] + Pieces(u, s, cps, e)
  }

  /** The pieces partition the text. */
  lemma {:induction false} PiecesText(u: PreTokenizer.Unicode, s: bytes, cps: seq<(int, nat)>, i: nat)
    requires PreTokenizer.Usable(u) && cps == Codepoints(s, 0)
    ensures Offset(cps, |s|, i) <= |s| && Flatten(Pieces(u, s, cps, i)) == s[Offset(cps, |s|, i)..]
    decreases |cps| - i
  {
    if i < |cps| {
      PreTokenizer.QwenProgress(u, Values(cps), i);
      var e := PreTokenizer.Match(u, PreTokenizer.QWEN2, Values(cps), i).value;
      PiecesText(u, s, cps, e);
      OnePiece(Pieces(u, s, cps, i), Pieces(u, s, cps, e), s, Offset(cps, |s|, i), Offset(cps, |s|, e));
    }
  }

  lemma OnePiece(all: seq<bytes>, rest: seq<bytes>, s: bytes, a: nat, b: nat)
    requires a <= b <= |s| && all == [s[a..b]] + rest && Flatten(rest) == s[b..]
    ensures Flatten(all) == s[a..]
  {
    FlattenConcat([s[a..b]], rest);
    FlattenOne(s[a..b]);
    assert s[a..b] + s[b..] == s[a..];
  }

  /** All symbols of a list of pieces, in order. */
  function AllWords(lines: seq<bytes>, pieces: seq<bytes>): seq<bytes> {
    if pieces == [] then [] else PieceWords(lines, pieces[0]) + AllWords(lines, pieces[1..])
  }

  /** The final symbols of a text without specials. */
  function TextWords(u: PreTokenizer.Unicode, lines: seq<bytes>, s: bytes): seq<bytes>
    requires PreTokenizer.Usable(u)
  {
    AllWords(lines, Pieces(u, s, Codepoints(s, 0), 0))
  }

  /** The codepoints and offsets collected so far. */
  ghost predicate Collected(s: bytes, i: nat, cps: seq<int>, boff: seq<nat>, done: seq<(int, nat)>) {
    && i <= |s| && |boff| == |done| && cps == Values(done) && Codepoints(s, 0) == done + Codepoints(s, i)
    && (forall k | 0 <= k < |done| :: boff[k] == done[k].1)
  }

  lemma CollectNext(s: bytes, i: nat, cps: seq<int>, boff: seq<nat>, done: seq<(int, nat)>, c: int, adv: nat)
    requires Collected(s, i, cps, boff, done) && i < |s| && (c, adv) == CpDecode(s[i..])
    ensures Collected(s, i + adv, cps + [c], boff + [i], done + [(c, i)])
  {
    Regroup(done, [(c, i)], Codepoints(s, i + adv), Codepoints(s, 0));
  }

  method CutCodepoints(s: bytes) returns (cps: seq<int>, boff: seq<nat>)
    ensures cps == Values(Codepoints(s, 0)) && |boff| == |cps| + 1
    ensures forall i | 0 <= i <= |cps| :: boff[i] == Offset(Codepoints(s, 0), |s|, i)
  {
    cps, boff := [], [];
    var i: nat := 0;
    ghost var done: seq<(int, nat)> := [];
    while i < |s|
      invariant Collected(s, i, cps, boff, done)
    {
      cps, boff, i, done := Collect(s, i, cps, boff, done);
    }
    var ends := boff + [|s|];
    CollectDone(s, cps, boff, done, ends);
    boff := ends;
  }

  /** One more codepoint. */
  method Collect(s: bytes, i: nat, cps: seq<int>, boff: seq<nat>, ghost done: seq<(int, nat)>)
    returns (cps': seq<int>, boff': seq<nat>, i': nat, ghost done': seq<(int, nat)>)
    requires Collected(s, i, cps, boff, done) && i < |s|
    ensures Collected(s, i', cps', boff', done') && i < i'
  {
    var (c, adv) := CpDecode(s[i..]);
    CollectNext(s, i, cps, boff, done, c, adv);
    return cps + [c], boff + [i], i + adv, done + [(c, i)];
  }

  lemma CollectDone(s: bytes, cps: seq<int>, boff: seq<nat>, done: seq<(int, nat)>, ends: seq<nat>)
    requires Collected(s, |s|, cps, boff, done) && ends == boff + [|s|]
    ensures cps == Values(Codepoints(s, 0)) && |ends| == |cps| + 1
    ensures forall i | 0 <= i <= |cps| :: ends[i] == Offset(Codepoints(s, 0), |s|, i)
  {
    assert done + [] == done;
  }

  lemma PieceSpan(u: PreTokenizer.Unicode, s: bytes, i: nat, e: nat)
    requires PreTokenizer.Usable(u) && i <= e
    ensures var cps := Codepoints(s, 0); Offset(cps, |s|, i) <= Offset(cps, |s|, e) <= |s|
  {
    OffsetsAscend(Codepoints(s, 0), |s|, i, e);
  }

  lemma OffsetsAscend(cps: seq<(int, nat)>, total: nat, i: nat, e: nat)
    requires i <= e && forall k | 0 <= k < |cps| :: cps[k].1 < total
    requires forall k, l | 0 <= k < l < |cps| :: cps[k].1 < cps[l].1
    ensures Offset(cps, total, i) <= Offset(cps, total, e) <= total
  {}

  lemma AllWordsStep(u: PreTokenizer.Unicode, lines: seq<bytes>, s: bytes, i: nat, e: nat,
                     piece: bytes, done: seq<bytes>, whole: seq<bytes>)
    requires PreTokenizer.Usable(u) && i < |Codepoints(s, 0)| && i <= e
    requires PreTokenizer.Match(u, PreTokenizer.QWEN2, Values(Codepoints(s, 0)), i) == Some(e)
    requires var (a, b) := (Offset(Codepoints(s, 0), |s|, i), Offset(Codepoints(s, 0), |s|, e));
             a <= b <= |s| && piece == s[a..b]
    requires done + AllWords(lines, Pieces(u, s, Codepoints(s, 0), i)) == whole
    ensures done + PieceWords(lines, piece) + AllWords(lines, Pieces(u, s, Codepoints(s, 0), e)) == whole
  {
    var cps := Codepoints(s, 0);
    var rest := Pieces(u, s, cps, e);
    assert Pieces(u, s, cps, i) == [piece] + rest;
    assert ([piece] + rest)[1..] == rest;
    Regroup(done, PieceWords(lines, piece), AllWords(lines, rest), whole);
  }

  lemma KnownConcat(tok: seq<bytes>, a: seq<bytes>, b: seq<bytes>)
    ensures Known(tok, a + b) <==> Known(tok, a) && Known(tok, b)
    ensures Ids(tok, a + b) == Ids(tok, a) + Ids(tok, b)
  {
    if Known(tok, a + b) {
      forall w | w in a ensures Lookup(tok, w) >= 0 { assert w in a + b; }
      forall w | w in b ensures Lookup(tok, w) >= 0 { assert w in a + b; }
    }
  }

  /** What has been encoded before codepoint `i`. */
  ghost predicate Progress(u: PreTokenizer.Unicode, lines: seq<bytes>, tok: seq<bytes>, s: bytes, i: nat,
                           done: seq<bytes>)
    requires PreTokenizer.Usable(u)
  {
    Known(tok, done) && done + AllWords(lines, Pieces(u, s, Codepoints(s, 0), i)) == TextWords(u, lines, s)
  }

  lemma ProgressStep(u: PreTokenizer.Unicode, lines: seq<bytes>, tok: seq<bytes>, s: bytes, i: nat, e: nat,
                     piece: bytes, done: seq<bytes>)
    requires PreTokenizer.Usable(u) && i < |Codepoints(s, 0)| && i <= e
    requires PreTokenizer.Match(u, PreTokenizer.QWEN2, Values(Codepoints(s, 0)), i) == Some(e)
    requires var (a, b) := (Offset(Codepoints(s, 0), |s|, i), Offset(Codepoints(s, 0), |s|, e));
             a <= b <= |s| && piece == s[a..b]
    requires Progress(u, lines, tok, s, i, done)
    ensures var ws := PieceWords(lines, piece);
            if Known(tok, ws) then Progress(u, lines, tok, s, e, done + ws) else !Known(tok, TextWords(u, lines, s))
  {
    var ws, rest := PieceWords(lines, piece), AllWords(lines, Pieces(u, s, Codepoints(s, 0), e));
    AllWordsStep(u, lines, s, i, e, piece, done, TextWords(u, lines, s));
    KnownConcat(tok, done, ws);
    KnownConcat(tok, done + ws, rest);
  }

  lemma ProgressDone(u: PreTokenizer.Unicode, lines: seq<bytes>, tok: seq<bytes>, s: bytes, i: nat, done: seq<bytes>)
    requires PreTokenizer.Usable(u) && i >= |Codepoints(s, 0)| && Progress(u, lines, tok, s, i, done)
    ensures done == TextWords(u, lines, s) && Known(tok, done)
  {
    assert AllWords(lines, Pieces(u, s, Codepoints(s, 0), i)) == [];
  }

  /** One piece of a text, from codepoint `i` on. */
  method EncodePiece(vocab: StringMap, merge: StringMap, tok: seq<bytes>, lines: seq<bytes>,
                     u: PreTokenizer.Unicode, bcp: seq<bytes>, s: bytes, cps: seq<int>, boff: seq<nat>, i: nat,
                     ghost done: seq<bytes>, ghost base: seq<int>, sink: Sink)
    returns (ok: bool, e: nat, ghost done': seq<bytes>)
    requires vocab.Valid() && Indexes(vocab.m, tok) && merge.Valid() && Indexes(merge.m, lines)
    requires PreTokenizer.Usable(u) && |bcp| == 256 && forall b: byte :: bcp[b] == Encoded(b)
    requires cps == Values(Codepoints(s, 0)) && |boff| == |cps| + 1 && i < |cps|
    requires forall i | 0 <= i <= |cps| :: boff[i] == Offset(Codepoints(s, 0), |s|, i)
    requires Progress(u, lines, tok, s, i, done) && sink.Valid() && sink.ids == base + Ids(tok, done)
    requires sink.out != vocab.e as object && sink.out != merge.e as object
    modifies sink, sink.out
    ensures sink.Valid() && i < e <= |cps|
    ensures !ok ==> !Known(tok, TextWords(u, lines, s))
    ensures ok ==> Progress(u, lines, tok, s, e, done') && sink.ids == base + Ids(tok, done')
  {
    e := PreTokenizer.NextPiece(u, cps, i);
    PieceSpan(u, s, i, e);
    var piece := s[boff[i]..boff[e]];
    ghost var ws := PieceWords(lines, piece);
    ProgressStep(u, lines, tok, s, i, e, piece, done);
    KnownConcat(tok, done, ws);
    Assoc(base, Ids(tok, done), Ids(tok, ws));
    ok := BpePiece(vocab, merge, tok, lines, bcp, piece, sink);
    done' := done + ws;
  }

  /** encode_text: pre-tokenize, then encode piece by piece. */
  method EncodeText(vocab: StringMap, merge: StringMap, tok: seq<bytes>, lines: seq<bytes>,
                    u: PreTokenizer.Unicode, bcp: seq<bytes>, s: bytes, sink: Sink) returns (ok: bool)
    requires vocab.Valid() && Indexes(vocab.m, tok) && merge.Valid() && Indexes(merge.m, lines)
    requires PreTokenizer.Usable(u) && |bcp| == 256 && forall b: byte :: bcp[b] == Encoded(b)
    requires sink.Valid() && sink.out != vocab.e as object && sink.out != merge.e as object
    modifies sink, sink.out
    ensures sink.Valid()
    ensures ok <==> Known(tok, TextWords(u, lines, s))
    ensures ok ==> sink.ids == old(sink.ids) + Ids(tok, TextWords(u, lines, s))
  {
    var cps, boff := CutCodepoints(s);
    var i := 0;
    ghost var base, done := sink.ids, [];
    while i < |cps|
      invariant i <= |cps| && sink.Valid()
      invariant Progress(u, lines, tok, s, i, done) && sink.ids == base + Ids(tok, done)
      modifies sink, sink.out
    {
      ok, i, done := EncodePiece(vocab, merge, tok, lines, u, bcp, s, cps, boff, i, done, base, sink);
      if !ok { return; }
    }
    ProgressDone(u, lines, tok, s, i, done);
    ok := true;
  }
}
