/** The SPM encoder: spm_fragment and spm_encode (src/tokenizer/tokenizer.c). */
module Spm {
  import opened Common
  import opened OpenTable
  import opened Vocab
  import opened MergeSpec
  import opened Symbols
  import opened BinaryHeap
  import opened Text
  import opened Fallback
  import opened Specials
  import opened SpmMerge

  /** What one fragment must produce: its fully merged symbols, best-scoring entry first. */
  function FragmentIds(tok: seq<bytes>, scores: seq<real>, s: bytes): seq<int>
    requires |scores| == |tok|
  {
    WordsIds(tok, Merged(Chars(Escape(s), Spm), ScoreRank(tok, scores)))
  }

  /** One more initial symbol. */
  method CutOne(s: bytes, sym: array<SpmSym>, ns: nat, o: nat) returns (o': nat)
    requires ns < sym.Length && o < |s| && CutUpTo(s, Spm, sym[..], ns, o)
    modifies sym
    ensures o < o' <= |s| && CutUpTo(s, Spm, sym[..], ns + 1, o')
  {
    var L := SymbolLen(Spm, s, o);
    CutNext(s, Spm, sym[..], ns, o, L, ());
    PutRecord(sym, ns, InitRecord(s, ns, o, L, ()));
    o' := o + L;
  }

  method NewSymbols(s: bytes) returns (sym: array<SpmSym>)
    ensures fresh(sym) && sym.Length == |s| + 1 && CutUpTo(s, Spm, sym[..], 0, 0)
  {
    sym := new SpmSym[|s| + 1](_ => Sym(-1, -1, 0, 0, ()));
    CutStarts(s, Spm, sym[..]);
  }

  /** The initial symbols: at most one per byte, so the array of |s| + 1 records is large enough. */
  method Cut(s: bytes) returns (sym: array<SpmSym>, ns: nat)
    ensures fresh(sym) && ns <= |s| && CutUpTo(s, Spm, sym[..], ns, |s|)
  {
    sym := NewSymbols(s);
    ns := 0;
    var o := 0;
    while o < |s|
      invariant ns <= o <= |s| && CutUpTo(s, Spm, sym[..], ns, o)
    {
      o := CutOne(s, sym, ns, o);
      ns := ns + 1;
    }
  }

  lemma BeforeIsOrder()
    ensures StrictWeakOrder(Before)
  {}

  lemma QueueNext(tok: seq<bytes>, scores: seq<real>, buf: bytes, sym: seq<SpmSym>, live: seq<nat>,
                  queue: multiset<Bigram>, i: nat)
    requires |scores| == |tok| && Ascending(live, |sym|) && i + 1 < |live|
    requires AllSound(tok, scores, buf, sym, live, queue)
    requires forall j | 0 <= j < i :: Covered(tok, scores, buf, sym, live, queue, j)
    ensures var queue' := queue + Queued(tok, scores, buf, sym, live[i], live[i + 1]);
            && AllSound(tok, scores, buf, sym, live, queue')
            && forall j | 0 <= j < i + 1 :: Covered(tok, scores, buf, sym, live, queue', j)
  {
    var extra := Queued(tok, scores, buf, sym, live[i], live[i + 1]);
    PushSound(tok, scores, buf, sym, live, queue, i);
    CoveredNow(tok, scores, buf, sym, live, queue, i);
    forall j | 0 <= j < i ensures Covered(tok, scores, buf, sym, live, queue + extra, j) {
      CoveredMore(tok, scores, buf, sym, live, queue, extra, j);
    }
  }

  lemma PairInside(s: bytes, sym: seq<SpmSym>, live: seq<nat>, i: nat)
    requires Linked(sym, live, |s|) && i + 1 < |live|
    ensures live[i] < |sym| && live[i + 1] < |sym| && sym[live[i]].off + sym[live[i]].n + sym[live[i + 1]].n <= |s|
  {
    JoinSpans(s, sym, live, i);
  }

  /** Queue the pair of initial neighbours i - 1 and i. */
  method QueueOne(vocab: StringMap, tok: seq<bytes>, scores: seq<real>, s: bytes, sym: array<SpmSym>,
                  ghost live: seq<nat>, i: nat, heap: Heap<Bigram>)
    requires vocab.Valid() && Indexes(vocab.m, tok) && |scores| == |tok|
    requires Linked(sym[..], live, |s|) && 1 <= i < |live| && live[i - 1] == i - 1 && live[i] == i
    requires heap.Valid() && heap.n < heap.e.Length && heap.e != sym as object && heap.e != vocab.e as object
    requires AllSound(tok, scores, s, sym[..], live, heap.Contents())
    requires forall j | 0 <= j < i - 1 :: Covered(tok, scores, s, sym[..], live, heap.Contents(), j)
    modifies heap`n, heap.e
    ensures heap.Valid() && heap.e == old(heap.e) && heap.n <= old(heap.n) + 1 && vocab.Valid()
    ensures AllSound(tok, scores, s, sym[..], live, heap.Contents())
    ensures forall j | 0 <= j < i :: Covered(tok, scores, s, sym[..], live, heap.Contents(), j)
  {
    PairInside(s, sym[..], live, i - 1);
    QueueNext(tok, scores, s, sym[..], live, heap.Contents(), i - 1);
    Try(vocab, tok, scores, s, sym, i - 1, i, heap);
  }

  /** Queue every pair of initial neighbours in a heap allocated once for 4 * |s| + 16 candidates. */
  method QueueAll(vocab: StringMap, tok: seq<bytes>, scores: seq<real>, s: bytes, sym: array<SpmSym>, ns: nat)
    returns (heap: Heap<Bigram>)
    requires vocab.Valid() && Indexes(vocab.m, tok) && |scores| == |tok|
    requires Linked(sym[..], Counted(ns), |s|) && ns <= |s|
    ensures fresh(heap) && fresh(heap.e) && heap.Valid() && heap.before == Before
    ensures heap.e.Length == 4 * |s| + 16 && heap.n < ns
    ensures Inv(tok, scores, s, sym[..], Counted(ns), heap.Contents())
  {
    BeforeIsOrder();
    heap := new Heap<Bigram>(Before, 4 * |s| + 16);
    ghost var live := Counted(ns);
    for i := 1 to ns
      invariant fresh(heap) && fresh(heap.e) && heap.Valid() && heap.n < i && heap.e.Length == 4 * |s| + 16
      invariant AllSound(tok, scores, s, sym[..], live, heap.Contents())
      invariant forall j | 0 <= j < i - 1 :: Covered(tok, scores, s, sym[..], live, heap.Contents(), j)
      invariant vocab.Valid()
    {
      QueueOne(vocab, tok, scores, s, sym, live, i, heap);
    }
  }

  /** A symbol's id, or its bytes when it has none. */
  method EmitSymbol(vocab: StringMap, byteTok: seq<int>, tok: seq<bytes>, s: bytes, r: SpmSym, sink: Sink)
    requires vocab.Valid() && Indexes(vocab.m, tok) && ByteTokens(byteTok, tok) && sink.Valid()
    requires sink.out != vocab.e as object && r.off + r.n <= |s|
    modifies sink, sink.out
    ensures sink.Valid() && sink.ids == old(sink.ids) + WordIds(tok, Span(s, r))
  {
    var w := TextOf(s, r);
    EmitWord(vocab, byteTok, tok, w, sink);
  }

  method TextOf(s: bytes, r: SpmSym) returns (w: bytes)
    requires r.off + r.n <= |s|
    ensures w == Span(s, r)
  {
    w := s[r.off..r.off + r.n];
  }

  method EmitWord(vocab: StringMap, byteTok: seq<int>, tok: seq<bytes>, w: bytes, sink: Sink)
    requires vocab.Valid() && Indexes(vocab.m, tok) && ByteTokens(byteTok, tok) && sink.Valid()
    modifies sink, sink.out
    ensures sink.Valid() && sink.ids == old(sink.ids) + WordIds(tok, w)
  {
    var id := vocab.Get(w, -1);
    if id >= 0 {
      sink.Emit(id);
    } else {
      EmitBytes(byteTok, tok, w, sink);
    }
  }

  lemma EmitStep(tok: seq<bytes>, s: bytes, sym: seq<SpmSym>, live: seq<nat>, p: nat)
    requires Linked(sym, live, |s|) && p < |live|
    ensures var r, ws := sym[live[p]], Words(s, sym, live);
            && r.off + r.n <= |s|
            && r.next == (if p + 1 == |live| then -1 else live[p + 1])
            && WordsIds(tok, ws[..p + 1]) == WordsIds(tok, ws[..p]) + WordIds(tok, Span(s, r))
  {
    assert LinkAt(sym, live, |s|, p);
    SpanBound(sym, live, |s|, p);
    WordsIdsSnoc(tok, Words(s, sym, live), p);
  }

  method EmitSymbols(vocab: StringMap, byteTok: seq<int>, tok: seq<bytes>, s: bytes, sym: array<SpmSym>,
                     ghost live: seq<nat>, sink: Sink)
    requires vocab.Valid() && Indexes(vocab.m, tok) && ByteTokens(byteTok, tok) && sink.Valid()
    requires sink.out != vocab.e as object && sym != sink.out as object
    requires Linked(sym[..], live, |s|)
    modifies sink, sink.out
    ensures sink.Valid() && sink.ids == old(sink.ids) + WordsIds(tok, Words(s, sym[..], live))
  {
    var i := 0;
    ghost var p: nat, ws, done, base := 0, Words(s, sym[..], live), [], sink.ids;
    while i != -1
      invariant p <= |live| && i == (if p == |live| then -1 else live[p])
      invariant vocab.Valid() && sink.Valid() && done == WordsIds(tok, ws[..p]) && sink.ids == base + done
      decreases |live| - p
    {
      EmitStep(tok, s, sym[..], live, p);
      Assoc(base, done, WordIds(tok, Span(s, sym[i])));
      EmitSymbol(vocab, byteTok, tok, s, sym[i], sink);
      done := done + WordIds(tok, Span(s, sym[i]));
      i, p := sym[i].next, p + 1;
    }
    assert ws[..|live|] == ws;
  }

  /** The symbols of an escaped text, merged. */
  method MergeText(vocab: StringMap, tok: seq<bytes>, scores: seq<real>, e: bytes)
    returns (sym: array<SpmSym>, ghost live: seq<nat>)
    requires vocab.Valid() && Indexes(vocab.m, tok) && |scores| == |tok| && e != []
    ensures fresh(sym) && Linked(sym[..], live, |e|)
    ensures Words(e, sym[..], live) == Merged(Chars(e, Spm), ScoreRank(tok, scores))
  {
    var ns;
    sym, ns := Cut(e);
    CutDone(e, Spm, sym[..], ns);
    var heap := QueueAll(vocab, tok, scores, e, sym, ns);
    ghost var pushes;
    live, pushes := MergeLoop(vocab, tok, scores, e, sym, heap, Counted(ns));
  }

  /** spm_fragment. */
  method Fragment(vocab: StringMap, byteTok: seq<int>, tok: seq<bytes>, scores: seq<real>, s: bytes, sink: Sink)
    requires vocab.Valid() && Indexes(vocab.m, tok) && |scores| == |tok| && ByteTokens(byteTok, tok)
    requires sink.Valid() && sink.out != vocab.e as object
    modifies sink, sink.out
    ensures sink.Valid() && sink.ids == old(sink.ids) + FragmentIds(tok, scores, s)
  {
    if s == [] { return; }
    var e := EscapeSpaces(s);
    ghost var live;
    var sym;
    sym, live := MergeText(vocab, tok, scores, e);
    EmitSymbols(vocab, byteTok, tok, e, sym, live, sink);
  }

  function SegmentIds(tok: seq<bytes>, scores: seq<real>, g: Segment): seq<int>
    requires |scores| == |tok|
  {
    match g
    case Plain(text) => FragmentIds(tok, scores, text)
    case Token(sp) => [sp.id]
  }

  function SegmentsIds(tok: seq<bytes>, scores: seq<real>, gs: seq<Segment>): seq<int>
    requires |scores| == |tok|
  {
    if gs == [] then [] else SegmentIds(tok, scores, gs[0]) + SegmentsIds(tok, scores, gs[1..])
  }

  lemma {:induction false} SegmentsIdsSnoc(tok: seq<bytes>, scores: seq<real>, gs: seq<Segment>, i: nat)
    requires |scores| == |tok| && i < |gs|
    ensures SegmentsIds(tok, scores, gs[..i + 1]) == SegmentsIds(tok, scores, gs[..i]) + SegmentIds(tok, scores, gs[i])
    decreases i
  {
    if i == 0 {
      assert gs[..1][1..] == [] && gs[..0] == [];
    } else {
      SegmentsIdsSnoc(tok, scores, gs[1..], i - 1);
      TakeTail(gs, i);
      SegmentsHead(tok, scores, gs[..i + 1]);
      SegmentsHead(tok, scores, gs[..i]);
      Assoc(SegmentIds(tok, scores, gs[0]), SegmentsIds(tok, scores, gs[1..][..i - 1]), SegmentIds(tok, scores, gs[i]));
    }
  }

  lemma SegmentsHead(tok: seq<bytes>, scores: seq<real>, gs: seq<Segment>)
    requires |scores| == |tok| && gs != []
    ensures SegmentsIds(tok, scores, gs) == SegmentIds(tok, scores, gs[0]) + SegmentsIds(tok, scores, gs[1..])
  {}

  method EncodeSegment(vocab: StringMap, byteTok: seq<int>, tok: seq<bytes>, scores: seq<real>, g: Segment, sink: Sink)
    requires vocab.Valid() && Indexes(vocab.m, tok) && |scores| == |tok| && ByteTokens(byteTok, tok)
    requires sink.Valid() && sink.out != vocab.e as object
    modifies sink, sink.out
    ensures vocab.Valid() && sink.Valid() && sink.ids == old(sink.ids) + SegmentIds(tok, scores, g)
  {
    match g
    case Plain(text) => Fragment(vocab, byteTok, tok, scores, text, sink);
    case Token(sp) => sink.Emit(sp.id);
  }

  /** spm_encode. `bos` is -1 when no begin token is to be added. */
  method Encode(vocab: StringMap, byteTok: seq<int>, tok: seq<bytes>, scores: seq<real>, spec: seq<Special>,
                parse: bool, bos: int, s: bytes, sink: Sink)
    requires vocab.Valid() && Indexes(vocab.m, tok) && |scores| == |tok| && ByteTokens(byteTok, tok)
    requires sink.Valid() && sink.ids == [] && sink.out != vocab.e as object
    modifies sink, sink.out
    ensures sink.Valid()
    ensures sink.ids == (if bos >= 0 then [bos] else [])
                        + SegmentsIds(tok, scores, Segments(if parse then spec else [], s))
  {
    if bos >= 0 { sink.Emit(bos); }
    var gs := Split(spec, s, parse);
    ghost var base, done := sink.ids, [];
    for i := 0 to |gs|
      invariant sink.Valid() && sink.ids == base + done
      invariant done == SegmentsIds(tok, scores, gs[..i])
      modifies sink, sink.out
    {
      SegmentsIdsSnoc(tok, scores, gs, i);
      Assoc(base, done, SegmentIds(tok, scores, gs[i]));
      EncodeSegment(vocab, byteTok, tok, scores, gs[i], sink);
      done := done + SegmentIds(tok, scores, gs[i]);
    }
    assert gs[..|gs|] == gs;
  }
}
