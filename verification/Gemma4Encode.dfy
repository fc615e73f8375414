/** The gemma4 encoder: g4_piece, g4_fragment and sp_g4_encode (src/tokenizer/gemma4_bpe.c). */
module Gemma4Encode {
  import opened Common
  import opened OpenTable
  import opened Vocab
  import opened MergeSpec
  import opened Symbols
  import opened BinaryHeap
  import opened Gemma4Build
  import opened Gemma4Merge
  import opened Text
  import opened Fallback
  import opened Specials

  /** What one piece must produce: the fully merged symbols of its characters, in order. */
  function PieceIds(tok: seq<bytes>, merges: seq<bytes>, s: bytes, newlines: bool): seq<int> {
    if newlines && Lookup(tok, s) >= 0 then [Lookup(tok, s)]
    else WordsIds(tok, Merged(Chars(s, Gemma4), MergeRank(merges)))
  }

  /** The symbol records of a text, each carrying the id of its spelling. */
  ghost predicate InitState(tok: seq<bytes>, s: bytes, sym: seq<IdSym>, ns: nat, o: nat) {
    CutUpTo(s, Gemma4, sym, ns, o) && TagsSpell(tok, s, sym, ns)
  }

  ghost predicate TagsSpell(tok: seq<bytes>, s: bytes, sym: seq<IdSym>, ns: nat) {
    ns <= |sym| && forall i | 0 <= i < ns :: TagAt(tok, s, sym, i)
  }

  ghost predicate TagAt(tok: seq<bytes>, s: bytes, sym: seq<IdSym>, i: nat)
    requires i < |sym|
  {
    sym[i].tag == Lookup(tok, Span(s, sym[i]))
  }

  lemma InitNext(tok: seq<bytes>, s: bytes, sym: seq<IdSym>, ns: nat, o: nat, n: nat, id: int)
    requires InitState(tok, s, sym, ns, o) && ns < |sym| && o < |s| && n == Min(LeadLen(Gemma4, s[o]), |s| - o)
    requires id == Lookup(tok, s[o..o + n])
    ensures InitState(tok, s, sym[ns := InitRecord(s, ns, o, n, id)], ns + 1, o + n)
  {
    CutNext(s, Gemma4, sym, ns, o, n, id);
    RecordSpan(s, ns, o, n, id);
    TagsNext(tok, s, sym, ns, InitRecord(s, ns, o, n, id));
  }

  lemma TagsNext(tok: seq<bytes>, s: bytes, sym: seq<IdSym>, ns: nat, r: IdSym)
    requires ns < |sym| && TagsSpell(tok, s, sym, ns) && r.tag == Lookup(tok, Span(s, r))
    ensures TagsSpell(tok, s, sym[ns := r], ns + 1)
  {
    var sym' := sym[ns := r];
    forall i | 0 <= i < ns ensures TagAt(tok, s, sym', i) {
      assert TagAt(tok, s, sym, i);
    }
  }

  /** A tokenizer ready to encode: vocabulary index and merge tables built from the same lists. */
  ghost predicate Ready(t: Tables, vocab: StringMap, tok: seq<bytes>, merges: seq<bytes>)
    reads t.pairs, t.pairs.keys, t.pairs.ranks, vocab, vocab.e
  {
    && t.Built(tok, merges) && Buildable(tok, merges) && |tok| <= I32
    && vocab.Valid() && Indexes(vocab.m, tok)
  }

  lemma InitEmpty(tok: seq<bytes>, s: bytes, sym: seq<IdSym>)
    requires forall i | 0 <= i < |sym| :: sym[i].n == 0
    ensures InitState(tok, s, sym, 0, 0)
  {
    CutStarts(s, Gemma4, sym);
  }

  /** Place the record of one more initial symbol. */
  method PlaceOne(ghost tok: seq<bytes>, s: bytes, sym: array<IdSym>, ns: nat, o: nat, n: nat, id: int)
    requires ns < sym.Length && o < |s| && InitState(tok, s, sym[..], ns, o)
    requires n == Min(LeadLen(Gemma4, s[o]), |s| - o) && id == Lookup(tok, s[o..o + n])
    modifies sym
    ensures InitState(tok, s, sym[..], ns + 1, o + n)
  {
    InitNext(tok, s, sym[..], ns, o, n, id);
    PutRecord(sym, ns, InitRecord(s, ns, o, n, id));
  }

  method IdAt(vocab: StringMap, tok: seq<bytes>, s: bytes, o: nat, n: nat) returns (id: int)
    requires vocab.Valid() && Indexes(vocab.m, tok) && o + n <= |s|
    ensures id == Lookup(tok, s[o..o + n])
  {
    id := vocab.Get(s[o..o + n], -1);
  }

  /** One more initial symbol. */
  method CutOne(vocab: StringMap, tok: seq<bytes>, s: bytes, sym: array<IdSym>, ns: nat, o: nat) returns (o': nat)
    requires vocab.Valid() && Indexes(vocab.m, tok) && sym != vocab.e as object
    requires ns < sym.Length && o < |s| && InitState(tok, s, sym[..], ns, o)
    modifies sym
    ensures vocab.Valid() && o < o' <= |s| && InitState(tok, s, sym[..], ns + 1, o')
  {
    var L := SymbolLen(Gemma4, s, o);
    var id := IdAt(vocab, tok, s, o, L);
    PlaceOne(tok, s, sym, ns, o, L, id);
    o' := o + L;
  }

  method NewSymbols(ghost tok: seq<bytes>, s: bytes) returns (sym: array<IdSym>)
    ensures fresh(sym) && sym.Length == |s| + 1 && InitState(tok, s, sym[..], 0, 0)
  {
    sym := new IdSym[|s| + 1](_ => Sym(-1, -1, 0, 0, -1));
    InitEmpty(tok, s, sym[..]);
  }

  /** The initial symbols: at most one per byte, so the array of |s| + 1 records is large enough. */
  method Cut(vocab: StringMap, tok: seq<bytes>, s: bytes) returns (sym: array<IdSym>, ns: nat)
    requires vocab.Valid() && Indexes(vocab.m, tok)
    ensures fresh(sym) && InitState(tok, s, sym[..], ns, |s|)
  {
    sym := NewSymbols(tok, s);
    ns := CutAll(vocab, tok, s, sym);
  }

  method CutAll(vocab: StringMap, tok: seq<bytes>, s: bytes, sym: array<IdSym>) returns (ns: nat)
    requires vocab.Valid() && Indexes(vocab.m, tok) && sym != vocab.e as object
    requires sym.Length == |s| + 1 && InitState(tok, s, sym[..], 0, 0)
    modifies sym
    ensures InitState(tok, s, sym[..], ns, |s|)
  {
    ns := 0;
    var o := 0;
    while o < |s|
      invariant ns <= o <= |s| && InitState(tok, s, sym[..], ns, o)
      modifies sym
    {
      o := CutOne(vocab, tok, s, sym, ns, o);
      ns := ns + 1;
    }
  }

  lemma InitDone(tok: seq<bytes>, s: bytes, sym: seq<IdSym>, ns: nat)
    requires InitState(tok, s, sym, ns, |s|) && s != []
    ensures Linked(sym, Counted(ns), |s|) && IdsMatch(tok, s, sym, Counted(ns))
    ensures Words(s, sym, Counted(ns)) == Chars(s, Gemma4)
  {
    CutDone(s, Gemma4, sym, ns);
    forall i | 0 <= i < ns ensures sym[Counted(ns)[i]].tag == Lookup(tok, Span(s, sym[Counted(ns)[i]])) {
      assert TagAt(tok, s, sym, i);
    }
  }

  /** Queue every pair of initial neighbours. */
  method QueueAll(t: Tables, tok: seq<bytes>, merges: seq<bytes>, s: bytes, sym: array<IdSym>, ns: nat)
    returns (heap: Heap<Bigram>)
    requires t.Built(tok, merges) && |tok| <= I32
    requires Linked(sym[..], Counted(ns), |s|) && IdsMatch(tok, s, sym[..], Counted(ns))
    ensures fresh(heap) && fresh(heap.e) && heap.Valid() && heap.before == Before && heap.n < ns
    ensures Inv(tok, merges, s, sym[..], Counted(ns), heap.Contents())
  {
    BeforeIsOrder();
    heap := new Heap<Bigram>(Before, 0);
    ghost var live := Counted(ns);
    for i := 1 to ns
      invariant fresh(heap) && fresh(heap.e) && heap.Valid() && heap.n < i
      invariant AllSound(tok, merges, sym.Length, live, heap.Contents())
      invariant forall j | 0 <= j < i - 1 :: Covered(tok, merges, sym[..], live, heap.Contents(), j)
    {
      QueueOne(t, tok, merges, s, sym, live, i, heap);
    }
  }

  /** Queue the pair of initial neighbours i - 1 and i. */
  method QueueOne(t: Tables, tok: seq<bytes>, merges: seq<bytes>, ghost s: bytes, sym: array<IdSym>,
                  ghost live: seq<nat>, i: nat, heap: Heap<Bigram>)
    requires t.Built(tok, merges) && |tok| <= I32 && heap.Valid()
    requires heap.e != sym as object && heap.e != t.pairs.keys as object && heap.e != t.pairs.ranks as object
    requires Linked(sym[..], live, |s|) && IdsMatch(tok, s, sym[..], live)
    requires 1 <= i < |live| && live[i - 1] == i - 1 && live[i] == i
    requires AllSound(tok, merges, sym.Length, live, heap.Contents())
    requires forall j | 0 <= j < i - 1 :: Covered(tok, merges, sym[..], live, heap.Contents(), j)
    modifies heap, heap.e
    ensures heap.Valid() && (heap.e == old(heap.e) || fresh(heap.e)) && heap.n <= old(heap.n) + 1
    ensures AllSound(tok, merges, sym.Length, live, heap.Contents())
    ensures forall j | 0 <= j < i :: Covered(tok, merges, sym[..], live, heap.Contents(), j)
  {
    TagsBounded(tok, s, sym[..], live, |s|, i - 1);
    TagsBounded(tok, s, sym[..], live, |s|, i);
    QueueNext(tok, merges, sym[..], live, heap.Contents(), i - 1);
    TryPair(t, tok, merges, sym, i - 1, i, heap);
  }

  lemma BeforeIsOrder()
    ensures StrictWeakOrder(Before)
  {}

  lemma QueueNext(tok: seq<bytes>, merges: seq<bytes>, sym: seq<IdSym>, live: seq<nat>, queue: multiset<Bigram>, i: nat)
    requires Ascending(live, |sym|) && AllSound(tok, merges, |sym|, live, queue) && i + 1 < |live|
    requires forall j | 0 <= j < i :: Covered(tok, merges, sym, live, queue, j)
    ensures var queue' := queue + Queued(tok, merges, sym, live[i], live[i + 1]);
            && AllSound(tok, merges, |sym|, live, queue')
            && forall j | 0 <= j < i + 1 :: Covered(tok, merges, sym, live, queue', j)
  {
    var extra := Queued(tok, merges, sym, live[i], live[i + 1]);
    PushSound(tok, merges, sym, live, queue, i);
    CoveredNow(tok, merges, sym, live, queue, i);
    forall j | 0 <= j < i ensures Covered(tok, merges, sym, live, queue + extra, j) {
      CoveredMore(tok, merges, sym, live, queue, extra, j);
    }
  }

  /** A symbol's id, or its bytes when it has none. */
  method EmitSymbol(byteTok: seq<int>, tok: seq<bytes>, s: bytes, r: IdSym, sink: Sink)
    requires ByteTokens(byteTok, tok) && sink.Valid() && r.off + r.n <= |s| && r.tag == Lookup(tok, Span(s, r))
    modifies sink, sink.out
    ensures sink.Valid() && sink.ids == old(sink.ids) + WordIds(tok, Span(s, r))
  {
    if r.tag >= 0 {
      sink.Emit(r.tag);
    } else {
      EmitBytes(byteTok, tok, s[r.off..r.off + r.n], sink);
    }
  }

  lemma EmitStep(tok: seq<bytes>, s: bytes, sym: seq<IdSym>, live: seq<nat>, p: nat)
    requires Linked(sym, live, |s|) && IdsMatch(tok, s, sym, live) && p < |live|
    ensures var r, ws := sym[live[p]], Words(s, sym, live);
            && r.off + r.n <= |s| && r.tag == Lookup(tok, Span(s, r))
            && r.next == (if p + 1 == |live| then -1 else live[p + 1])
            && WordsIds(tok, ws[..p + 1]) == WordsIds(tok, ws[..p]) + WordIds(tok, Span(s, r))
  {
    assert LinkAt(sym, live, |s|, p);
    SpanBound(sym, live, |s|, p);
    WordsIdsSnoc(tok, Words(s, sym, live), p);
  }

  /** Walk the list and emit every symbol. */
  method EmitSymbols(byteTok: seq<int>, tok: seq<bytes>, s: bytes, sym: array<IdSym>, ghost live: seq<nat>, sink: Sink)
    requires ByteTokens(byteTok, tok) && sink.Valid() && sym != sink.out as object
    requires Linked(sym[..], live, |s|) && IdsMatch(tok, s, sym[..], live)
    modifies sink, sink.out
    ensures sink.Valid() && sink.ids == old(sink.ids) + WordsIds(tok, Words(s, sym[..], live))
  {
    var i := 0;
    ghost var p: nat, ws, done, base := 0, Words(s, sym[..], live), [], sink.ids;
    while i != -1
      invariant p <= |live| && i == (if p == |live| then -1 else live[p])
      invariant sink.Valid() && done == WordsIds(tok, ws[..p]) && sink.ids == base + done
      decreases |live| - p
    {
      EmitStep(tok, s, sym[..], live, p);
      Assoc(base, done, WordIds(tok, Span(s, sym[i])));
      EmitSymbol(byteTok, tok, s, sym[i], sink);
      done := done + WordIds(tok, Span(s, sym[i]));
      i, p := sym[i].next, p + 1;
    }
    assert ws[..|live|] == ws;
  }

  /** The symbols of a piece, merged. */
  method MergePiece(t: Tables, vocab: StringMap, tok: seq<bytes>, merges: seq<bytes>, s: bytes)
    returns (sym: array<IdSym>, ghost live: seq<nat>)
    requires Ready(t, vocab, tok, merges) && s != []
    ensures fresh(sym) && Linked(sym[..], live, |s|) && IdsMatch(tok, s, sym[..], live)
    ensures Words(s, sym[..], live) == Merged(Chars(s, Gemma4), MergeRank(merges))
  {
    var ns;
    sym, ns := Cut(vocab, tok, s);
    InitDone(tok, s, sym[..], ns);
    var heap := QueueAll(t, tok, merges, s, sym, ns);
    ghost var popped;
    live, popped := MergeLoop(t, tok, merges, s, sym, heap, Counted(ns));
  }

  /** g4_piece: merge one piece and emit it. */
  method Piece(t: Tables, vocab: StringMap, tok: seq<bytes>, merges: seq<bytes>, s: bytes, newlines: bool, sink: Sink)
    requires Ready(t, vocab, tok, merges) && s != [] && sink.Valid()
    requires sink.out != t.pairs.keys && sink.out != t.pairs.ranks && sink.out != vocab.e as object
    modifies sink, sink.out
    ensures sink.Valid() && sink.ids == old(sink.ids) + PieceIds(tok, merges, s, newlines)
  {
    if newlines {
      var id := vocab.Get(s, -1);
      if id >= 0 {
        sink.Emit(id);
        return;
      }
    }
    ghost var live;
    var sym;
    sym, live := MergePiece(t, vocab, tok, merges, s);
    EmitSymbols(t.byteTok, tok, s, sym, live, sink);
  }

  /** The end of the run of newlines, or of other bytes, that position `k` continues. */
  function RunEnd(e: bytes, newlines: bool, k: nat): (end: nat)
    requires k <= |e|
    ensures k <= end <= |e|
    ensures forall i | k <= i < end :: (e[i] == LF) == newlines
    ensures end < |e| ==> (e[end] == LF) != newlines
    decreases |e| - k
  {
    if k < |e| && (e[k] == LF) == newlines then RunEnd(e, newlines, k + 1) else k
  }

  /** The ids of an escaped fragment: its alternating runs of newlines and other text, piece by piece. */
  function RunsIds(tok: seq<bytes>, merges: seq<bytes>, e: bytes): seq<int>
    decreases |e|
  {
    if e == [] then [] else
    var n := RunEnd(e, e[0] == LF, 1);
    PieceIds(tok, merges, e[..n], e[0] == LF) + RunsIds(tok, merges, e[n..])
  }

  function FragmentIds(tok: seq<bytes>, merges: seq<bytes>, s: bytes): seq<int> {
    RunsIds(tok, merges, Escape(s))
  }

  function SegmentIds(tok: seq<bytes>, merges: seq<bytes>, g: Segment): seq<int> {
    match g
    case Plain(text) => FragmentIds(tok, merges, text)
    case Token(sp) => [sp.id]
  }

  function SegmentsIds(tok: seq<bytes>, merges: seq<bytes>, gs: seq<Segment>): seq<int> {
    if gs == [] then [] else SegmentIds(tok, merges, gs[0]) + SegmentsIds(tok, merges, gs[1..])
  }

  /** What sp_g4_encode must produce. */
  function EncodeIds(tok: seq<bytes>, merges: seq<bytes>, spec: seq<Special>, parse: bool, bos: int,
                     s: bytes): seq<int> {
    (if bos >= 0 then [bos] else []) + SegmentsIds(tok, merges, Segments(if parse then spec else [], s))
  }

  /** g4_fragment: escape, cut into newline runs and the rest, encode piece by piece. */
  method Fragment(t: Tables, vocab: StringMap, tok: seq<bytes>, merges: seq<bytes>, s: bytes, sink: Sink)
    requires Ready(t, vocab, tok, merges) && sink.Valid()
    requires sink.out != t.pairs.keys && sink.out != t.pairs.ranks && sink.out != vocab.e as object
    modifies sink, sink.out
    ensures sink.Valid() && sink.ids == old(sink.ids) + FragmentIds(tok, merges, s)
  {
    var e := EscapeSpaces(s);
    var o := 0;
    ghost var base, done := sink.ids, [];
    assert e[0..] == e;
    while o < |e|
      invariant o <= |e| && sink.Valid() && sink.ids == base + done
      invariant done + RunsIds(tok, merges, e[o..]) == RunsIds(tok, merges, e)
      modifies sink, sink.out
    {
      o, done := NextRun(t, vocab, tok, merges, e, o, sink, base, done);
    }
  }

  /** Encode the run that starts at o. */
  method NextRun(t: Tables, vocab: StringMap, tok: seq<bytes>, merges: seq<bytes>, e: bytes, o: nat, sink: Sink,
                 ghost base: seq<int>, ghost done: seq<int>) returns (end: nat, ghost done': seq<int>)
    requires Ready(t, vocab, tok, merges) && sink.Valid() && o < |e| && sink.ids == base + done
    requires sink.out != t.pairs.keys && sink.out != t.pairs.ranks && sink.out != vocab.e as object
    requires done + RunsIds(tok, merges, e[o..]) == RunsIds(tok, merges, e)
    modifies sink, sink.out
    ensures Ready(t, vocab, tok, merges) && sink.Valid() && o < end <= |e| && sink.ids == base + done'
    ensures done' + RunsIds(tok, merges, e[end..]) == RunsIds(tok, merges, e)
  {
    var newlines := e[o] == LF;
    end := FindRunEnd(e, newlines, o + 1);
    RunsStep(tok, merges, e, o, end, done);
    Assoc(base, done, PieceIds(tok, merges, e[o..end], newlines));
    Piece(t, vocab, tok, merges, e[o..end], newlines, sink);
    done' := done + PieceIds(tok, merges, e[o..end], newlines);
  }

  method FindRunEnd(e: bytes, newlines: bool, k: nat) returns (end: nat)
    requires k <= |e|
    ensures end == RunEnd(e, newlines, k)
  {
    end := k;
    while end < |e| && (e[end] == LF) == newlines
      invariant k <= end <= |e| && RunEnd(e, newlines, end) == RunEnd(e, newlines, k)
    {
      end := end + 1;
    }
  }

  lemma {:induction false} RunEndShift(e: bytes, newlines: bool, o: nat, k: nat)
    requires o <= k <= |e|
    ensures RunEnd(e[o..], newlines, k - o) == RunEnd(e, newlines, k) - o
    decreases |e| - k
  {
    if k < |e| && (e[k] == LF) == newlines {
      RunEndShift(e, newlines, o, k + 1);
    }
  }

  lemma RunsHead(tok: seq<bytes>, merges: seq<bytes>, u: bytes, n: nat, piece: bytes, rest: bytes)
    requires u != [] && n == RunEnd(u, u[0] == LF, 1) && piece == u[..n] && rest == u[n..]
    ensures RunsIds(tok, merges, u) == PieceIds(tok, merges, piece, u[0] == LF) + RunsIds(tok, merges, rest)
  {}

  lemma RunsUnfold(tok: seq<bytes>, merges: seq<bytes>, e: bytes, o: nat, end: nat)
    requires o < |e| && end == RunEnd(e, e[o] == LF, o + 1)
    ensures RunsIds(tok, merges, e[o..])
            == PieceIds(tok, merges, e[o..end], e[o] == LF) + RunsIds(tok, merges, e[end..])
  {
    RunEndShift(e, e[o] == LF, o, o + 1);
    SliceShift(e, o, end);
    RunsHead(tok, merges, e[o..], end - o, e[o..end], e[end..]);
  }

  lemma SliceShift(e: bytes, o: nat, end: nat)
    requires o <= end <= |e|
    ensures e[o..][..end - o] == e[o..end] && e[o..][end - o..] == e[end..]
  {}

  lemma RunsStep(tok: seq<bytes>, merges: seq<bytes>, e: bytes, o: nat, end: nat, done: seq<int>)
    requires o < |e| && end == RunEnd(e, e[o] == LF, o + 1)
    requires done + RunsIds(tok, merges, e[o..]) == RunsIds(tok, merges, e)
    ensures done + PieceIds(tok, merges, e[o..end], e[o] == LF) + RunsIds(tok, merges, e[end..])
            == RunsIds(tok, merges, e)
  {
    RunsUnfold(tok, merges, e, o, end);
    Regroup(done, PieceIds(tok, merges, e[o..end], e[o] == LF), RunsIds(tok, merges, e[end..]),
            RunsIds(tok, merges, e));
  }

  lemma {:induction false} SegmentsIdsSnoc(tok: seq<bytes>, merges: seq<bytes>, gs: seq<Segment>, i: nat)
    requires i < |gs|
    ensures SegmentsIds(tok, merges, gs[..i + 1]) == SegmentsIds(tok, merges, gs[..i]) + SegmentIds(tok, merges, gs[i])
    decreases i
  {
    if i == 0 {
      assert gs[..1][1..] == [] && gs[..0] == [];
    } else {
      SegmentsIdsSnoc(tok, merges, gs[1..], i - 1);
      TakeTail(gs, i);
      SegmentsHead(tok, merges, gs[..i + 1]);
      SegmentsHead(tok, merges, gs[..i]);
      Assoc(SegmentIds(tok, merges, gs[0]), SegmentsIds(tok, merges, gs[1..][..i - 1]), SegmentIds(tok, merges, gs[i]));
    }
  }

  lemma SegmentsHead(tok: seq<bytes>, merges: seq<bytes>, gs: seq<Segment>)
    requires gs != []
    ensures SegmentsIds(tok, merges, gs) == SegmentIds(tok, merges, gs[0]) + SegmentsIds(tok, merges, gs[1..])
  {}

  method EncodeSegment(t: Tables, vocab: StringMap, tok: seq<bytes>, merges: seq<bytes>, g: Segment, sink: Sink)
    requires Ready(t, vocab, tok, merges) && sink.Valid()
    requires sink.out != t.pairs.keys && sink.out != t.pairs.ranks && sink.out != vocab.e as object
    modifies sink, sink.out
    ensures Ready(t, vocab, tok, merges) && sink.Valid() && sink.ids == old(sink.ids) + SegmentIds(tok, merges, g)
  {
    match g
    case Plain(text) => Fragment(t, vocab, tok, merges, text, sink);
    case Token(sp) => sink.Emit(sp.id);
  }

  /** sp_g4_encode. `bos` is -1 when no begin token is to be added. */
  method Encode(t: Tables, vocab: StringMap, tok: seq<bytes>, merges: seq<bytes>, spec: seq<Special>,
                parse: bool, bos: int, s: bytes, sink: Sink)
    requires Ready(t, vocab, tok, merges) && sink.Valid() && sink.ids == []
    requires sink.out != t.pairs.keys && sink.out != t.pairs.ranks && sink.out != vocab.e as object
    modifies sink, sink.out
    ensures sink.Valid() && sink.ids == EncodeIds(tok, merges, spec, parse, bos, s)
  {
    if bos >= 0 { sink.Emit(bos); }
    var gs := Split(spec, s, parse);
    ghost var base, done := sink.ids, [];
    for i := 0 to |gs|
      invariant Ready(t, vocab, tok, merges) && sink.Valid() && sink.ids == base + done
      invariant done == SegmentsIds(tok, merges, gs[..i])
    {
      SegmentsIdsSnoc(tok, merges, gs, i);
      Assoc(base, done, SegmentIds(tok, merges, gs[i]));
      EncodeSegment(t, vocab, tok, merges, gs[i], sink);
      done := done + SegmentIds(tok, merges, gs[i]);
    }
    assert gs[..|gs|] == gs;
  }
}
