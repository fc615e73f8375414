/**
 * The symbol records of both heap-driven merge loops: a doubly linked list threaded through
 * an array, each live record naming a span of one text buffer (g4_sym, spm_sym).
 * `tag` is what a lane keeps beside the span: the id in the gemma4 lane, nothing in the SPM lane.
 */
module Symbols {
  import opened Common
  import opened MergeSpec

  datatype Sym<+T> = Sym(prev: int, next: int, off: nat, n: nat, tag: T)

  ghost predicate Ascending(live: seq<nat>, bound: nat) {
    && (forall i | 0 <= i < |live| :: live[i] < bound)
    && (forall i, j | 0 <= i < j < |live| :: live[i] < live[j])
  }

  /** The i-th live record points at its live neighbours and its span ends where the next begins. */
  ghost predicate LinkAt<T>(sym: seq<Sym<T>>, live: seq<nat>, total: nat, i: nat)
    requires Ascending(live, |sym|) && i < |live|
  {
    var s := sym[live[i]];
    && s.n > 0
    && s.prev == (if i == 0 then -1 else live[i - 1])
    && s.next == (if i + 1 == |live| then -1 else live[i + 1])
    && s.off + s.n == (if i + 1 == |live| then total else sym[live[i + 1]].off)
  }

  /**
   * `live` lists, from left to right, the records still linked. They tile the buffer [0, total);
   * every other record has been consumed (n == 0).
   */
  ghost predicate Linked<T>(sym: seq<Sym<T>>, live: seq<nat>, total: nat) {
    && |live| > 0 && Ascending(live, |sym|) && live[0] == 0 && sym[0].off == 0
    && (forall i | 0 <= i < |live| :: LinkAt(sym, live, total, i))
    && (forall x | 0 <= x < |sym| && x !in live :: sym[x].n == 0)
  }

  /** Every span lies inside the buffer. */
  lemma {:induction false} SpanBound<T>(sym: seq<Sym<T>>, live: seq<nat>, total: nat, i: nat)
    requires Linked(sym, live, total) && i < |live|
    ensures sym[live[i]].off + sym[live[i]].n <= total
    decreases |live| - i
  {
    assert LinkAt(sym, live, total, i);
    if i + 1 < |live| {
      SpanBound(sym, live, total, i + 1);
    }
  }

  ghost function Span<T>(buf: bytes, s: Sym<T>): bytes {
    if s.off + s.n <= |buf| then buf[s.off..s.off + s.n] else []
  }

  /** The spellings of the live symbols, from left to right. */
  ghost function Words<T>(buf: bytes, sym: seq<Sym<T>>, live: seq<nat>): (ws: seq<bytes>)
    requires forall i | 0 <= i < |live| :: live[i] < |sym|
    ensures |ws| == |live|
    ensures forall i | 0 <= i < |live| :: ws[i] == Span(buf, sym[live[i]])
  {
    seq(|live|, i requires 0 <= i < |live| => Span(buf, sym[live[i]]))
  }

  /** The record update of one merge: `l` takes over `r`'s span and successor. */
  function Absorb<T>(sym: seq<Sym<T>>, l: nat, r: nat, tagL: T, tagR: T): (s: seq<Sym<T>>)
    requires l < |sym| && r < |sym| && l != r && sym[r].next < |sym|
    ensures |s| == |sym|
  {
    var s1 := sym[l := sym[l].(n := sym[l].n + sym[r].n, tag := tagL, next := sym[r].next)];
    var s2 := s1[r := s1[r].(n := 0, tag := tagR)];
    if sym[r].next >= 0 then s2[sym[r].next := s2[sym[r].next].(prev := l)] else s2
  }

  /** The offset of a record never changes. */
  lemma AbsorbOffsets<T>(sym: seq<Sym<T>>, l: nat, r: nat, tagL: T, tagR: T)
    requires l < |sym| && r < |sym| && l != r && sym[r].next < |sym|
    ensures var sym' := Absorb(sym, l, r, tagL, tagR); forall x | 0 <= x < |sym| :: sym'[x].off == sym[x].off
  {}

  function Without(live: seq<nat>, k: nat): (r: seq<nat>)
    requires k < |live|
    ensures |r| == |live| - 1
    ensures forall i | 0 <= i < |r| :: r[i] == live[if i < k then i else i + 1]
  {
    seq(|live| - 1, i requires 0 <= i < |live| - 1 => live[if i < k then i else i + 1])
  }

  lemma WithoutMembers(live: seq<nat>, k: nat, bound: nat)
    requires k < |live| && Ascending(live, bound)
    ensures Ascending(Without(live, k), bound)
    ensures forall x :: x in Without(live, k) <==> x in live && x != live[k]
  {
    var r := Without(live, k);
    forall x | x in live && x != live[k] ensures x in r {
      var i :| 0 <= i < |live| && live[i] == x;
      assert r[if i < k then i else i - 1] == x;
    }
  }

  /** A record after a merge, in terms of the record before. */
  lemma AbsorbRecord<T>(sym: seq<Sym<T>>, live: seq<nat>, total: nat, k: nat, tagL: T, tagR: T, i: nat)
    requires Linked(sym, live, total) && k + 1 < |live| && i < |live| && i != k + 1
    ensures sym[live[k + 1]].next < |sym|
    ensures var s', s := Absorb(sym, live[k], live[k + 1], tagL, tagR)[live[i]], sym[live[i]];
            && s'.off == s.off
            && s'.n == (if i == k then s.n + sym[live[k + 1]].n else s.n)
            && s'.tag == (if i == k then tagL else s.tag)
            && s'.prev == (if i == k + 2 then live[k] else s.prev)
            && s'.next == (if i == k then sym[live[k + 1]].next else s.next)
  {
    assert LinkAt(sym, live, total, k + 1);
    assert forall j | 0 <= j < |live| && j != i :: live[j] != live[i];
  }

  /** The links of a live record name its live neighbours. */
  lemma LinksAre<T>(sym: seq<Sym<T>>, live: seq<nat>, total: nat, k: nat)
    requires Linked(sym, live, total) && k < |live|
    ensures live[k] < |sym| && sym[live[k]].prev < |sym| && sym[live[k]].next < |sym|
    ensures sym[live[k]].prev == if k == 0 then -1 else live[k - 1]
    ensures sym[live[k]].next == if k + 1 == |live| then -1 else live[k + 1]
  {
    assert LinkAt(sym, live, total, k);
  }

  /** A merge leaves the tag and the width of the records it does not touch. */
  lemma AbsorbKeeps<T>(sym: seq<Sym<T>>, live: seq<nat>, total: nat, k: nat, tagL: T, tagR: T, i: nat)
    requires Linked(sym, live, total) && k + 1 < |live| && i < |live| && i != k && i != k + 1
    ensures sym[live[k + 1]].next < |sym| && live[i] != live[k]
    ensures var s', s := Absorb(sym, live[k], live[k + 1], tagL, tagR)[live[i]], sym[live[i]];
            s'.off == s.off && s'.n == s.n && s'.tag == s.tag
  {
    AbsorbRecord(sym, live, total, k, tagL, tagR, i);
  }

  /** Where a neighbouring pair not touched by a merge was before. */
  lemma WithoutAt(live: seq<nat>, k: nat, i: nat)
    requires k + 1 < |live| && i + 2 < |live| && i != k
    ensures var live', i0 := Without(live, k + 1), if i < k + 1 then i else i + 1;
            live'[i] == live[i0] && live'[i + 1] == live[i0 + 1]
  {}

  /** The live neighbours after a merge, by old position. */
  lemma NeighboursAfter(live: seq<nat>, k: nat, i: nat)
    requires k + 1 < |live| && i < |live| && i != k + 1
    ensures var live', j := Without(live, k + 1), if i < k + 1 then i else i - 1;
            && j < |live'| && live'[j] == live[i]
            && (j == 0 <==> i == 0) && (j > 0 ==> live'[j - 1] == live[if i == k + 2 then k else i - 1])
            && (j + 1 == |live'| <==> i + 1 == |live| || (i == k && k + 2 == |live|))
            && (j + 1 < |live'| ==> live'[j + 1] == live[if i == k then k + 2 else i + 1])
  {}

  lemma AbsorbLinkAt<T>(sym: seq<Sym<T>>, live: seq<nat>, total: nat, k: nat, tagL: T, tagR: T, i: nat)
    requires Linked(sym, live, total) && k + 1 < |live| && i < |live| && i != k + 1
    requires sym[live[k + 1]].next < |sym|
    requires Ascending(Without(live, k + 1), |sym|)
    ensures LinkAt(Absorb(sym, live[k], live[k + 1], tagL, tagR), Without(live, k + 1), total,
                   if i < k + 1 then i else i - 1)
  {
    NeighboursAfter(live, k, i);
    AbsorbRecord(sym, live, total, k, tagL, tagR, i);
    assert LinkAt(sym, live, total, i) && LinkAt(sym, live, total, k + 1);
    AbsorbOffsets(sym, live[k], live[k + 1], tagL, tagR);
  }

  lemma AbsorbLinks<T>(sym: seq<Sym<T>>, live: seq<nat>, total: nat, k: nat, tagL: T, tagR: T)
    requires Linked(sym, live, total) && k + 1 < |live| && sym[live[k + 1]].next < |sym|
    requires Ascending(Without(live, k + 1), |sym|)
    ensures var sym', live' := Absorb(sym, live[k], live[k + 1], tagL, tagR), Without(live, k + 1);
            forall i | 0 <= i < |live'| :: LinkAt(sym', live', total, i)
  {
    var sym', live' := Absorb(sym, live[k], live[k + 1], tagL, tagR), Without(live, k + 1);
    forall i | 0 <= i < |live'| ensures LinkAt(sym', live', total, i) {
      if i < k + 1 {
        AbsorbLinkAt(sym, live, total, k, tagL, tagR, i);
      } else {
        AbsorbLinkAt(sym, live, total, k, tagL, tagR, i + 1);
      }
    }
  }

  /** Merging two linked neighbours keeps the list linked, one symbol shorter. */
  lemma AbsorbLinked<T>(sym: seq<Sym<T>>, live: seq<nat>, total: nat, k: nat, tagL: T, tagR: T)
    requires Linked(sym, live, total) && k + 1 < |live|
    ensures sym[live[k + 1]].next < |sym|
    ensures Linked(Absorb(sym, live[k], live[k + 1], tagL, tagR), Without(live, k + 1), total)
  {
    assert LinkAt(sym, live, total, k + 1);
    WithoutMembers(live, k + 1, |sym|);
    AbsorbLinks(sym, live, total, k, tagL, tagR);
    AbsorbRecord(sym, live, total, k, tagL, tagR, 0);
    AbsorbDead(sym, live, total, k, tagL, tagR);
  }

  lemma AbsorbDead<T>(sym: seq<Sym<T>>, live: seq<nat>, total: nat, k: nat, tagL: T, tagR: T)
    requires Linked(sym, live, total) && k + 1 < |live| && sym[live[k + 1]].next < |sym|
    ensures var sym', live' := Absorb(sym, live[k], live[k + 1], tagL, tagR), Without(live, k + 1);
            forall x | 0 <= x < |sym'| && x !in live' :: sym'[x].n == 0
  {
    WithoutMembers(live, k + 1, |sym|);
    assert LinkAt(sym, live, total, k + 1);
    assert live[k] in live;
    if k + 2 < |live| { assert live[k + 2] in live; }
  }

  /** Merging two linked neighbours joins their spellings and leaves the others alone. */
  lemma AbsorbWords<T>(buf: bytes, sym: seq<Sym<T>>, live: seq<nat>, k: nat, tagL: T, tagR: T)
    requires Linked(sym, live, |buf|) && k + 1 < |live|
    requires sym[live[k + 1]].next < |sym|
    requires Linked(Absorb(sym, live[k], live[k + 1], tagL, tagR), Without(live, k + 1), |buf|)
    ensures Words(buf, Absorb(sym, live[k], live[k + 1], tagL, tagR), Without(live, k + 1))
            == MergeAt(Words(buf, sym, live), k)
  {
    var sym', live' := Absorb(sym, live[k], live[k + 1], tagL, tagR), Without(live, k + 1);
    var ws, ws' := Words(buf, sym, live), Words(buf, sym', live');
    forall i | 0 <= i < |ws'| ensures ws'[i] == MergeAt(ws, k)[i] {
      AbsorbWord(buf, sym, live, k, tagL, tagR, if i < k + 1 then i else i + 1);
    }
  }

  lemma AbsorbWord<T>(buf: bytes, sym: seq<Sym<T>>, live: seq<nat>, k: nat, tagL: T, tagR: T, i: nat)
    requires Linked(sym, live, |buf|) && k + 1 < |live| && i < |live| && i != k + 1
    requires sym[live[k + 1]].next < |sym|
    ensures Span(buf, Absorb(sym, live[k], live[k + 1], tagL, tagR)[live[i]])
            == if i == k then Span(buf, sym[live[k]]) + Span(buf, sym[live[k + 1]]) else Span(buf, sym[live[i]])
  {
    AbsorbRecord(sym, live, |buf|, k, tagL, tagR, i);
    JoinSpans(buf, sym, live, k);
  }

  lemma JoinSpans<T>(buf: bytes, sym: seq<Sym<T>>, live: seq<nat>, k: nat)
    requires Linked(sym, live, |buf|) && k + 1 < |live|
    ensures var (l, r) := (sym[live[k]], sym[live[k + 1]]);
            && r.off == l.off + l.n && r.off + r.n <= |buf|
            && Span(buf, l) + Span(buf, r) == buf[l.off..l.off + l.n + r.n]
  {
    assert LinkAt(sym, live, |buf|, k);
    SpanBound(sym, live, |buf|, k + 1);
  }

  /** Two live records with no live record between them are neighbours in the list. */
  lemma StillAdjacent<T>(sym: seq<Sym<T>>, live: seq<nat>, total: nat, l: nat, r: nat) returns (k: nat)
    requires Linked(sym, live, total) && l < r < |sym|
    requires sym[l].n > 0 && sym[r].n > 0
    requires forall x | l < x < r :: x !in live
    ensures k + 1 < |live| && live[k] == l && live[k + 1] == r
  {
    assert l in live && r in live;
    k :| 0 <= k < |live| && live[k] == l;
    var j :| 0 <= j < |live| && live[j] == r;
    assert k < j;
    assert live[k + 1] in live && l < live[k + 1];
  }

  lemma FlattenFrom(ws: seq<bytes>, i: nat)
    requires i < |ws|
    ensures Flatten(ws[i..]) == ws[i] + Flatten(ws[i + 1..])
  {
    assert ws[i..] == [ws[i]] + ws[i + 1..];
    FlattenConcat([ws[i]], ws[i + 1..]);
    FlattenOne(ws[i]);
  }

  lemma SpanTail(buf: bytes, off: nat, n: nat)
    requires off + n <= |buf|
    ensures buf[off..off + n] + buf[off + n..] == buf[off..]
  {}

  /** The live spellings tile the text. */
  lemma {:induction false} WordsText<T>(buf: bytes, sym: seq<Sym<T>>, live: seq<nat>, i: nat)
    requires Linked(sym, live, |buf|) && i < |live|
    ensures sym[live[i]].off <= |buf|
    ensures Flatten(Words(buf, sym, live)[i..]) == buf[sym[live[i]].off..]
    decreases |live| - i
  {
    var ws, off, n := Words(buf, sym, live), sym[live[i]].off, sym[live[i]].n;
    NextOffset(buf, sym, live, i);
    if i + 1 < |live| { WordsText(buf, sym, live, i + 1); } else { TextEnds(ws, buf, off + n); }
    TileStep(ws, i, buf, off, n);
  }

  lemma TileStep(ws: seq<bytes>, i: nat, buf: bytes, off: nat, n: nat)
    requires i < |ws| && off + n <= |buf| && ws[i] == buf[off..off + n] && Flatten(ws[i + 1..]) == buf[off + n..]
    ensures Flatten(ws[i..]) == buf[off..]
  {
    FlattenFrom(ws, i);
    SpanTail(buf, off, n);
  }

  lemma NextOffset<T>(buf: bytes, sym: seq<Sym<T>>, live: seq<nat>, i: nat)
    requires Linked(sym, live, |buf|) && i < |live|
    ensures var s := sym[live[i]];
            s.off + s.n <= |buf| && s.off + s.n == if i + 1 == |live| then |buf| else sym[live[i + 1]].off
  {
    assert LinkAt(sym, live, |buf|, i);
    SpanBound(sym, live, |buf|, i);
  }

  lemma TextEnds(ws: seq<bytes>, buf: bytes, end: nat)
    requires end == |buf|
    ensures Flatten(ws[|ws|..]) == buf[end..]
  {}
}
