/**
 * What the two vocabulary-piece lanes share before merging: escaping spaces, cutting text into
 * the first symbols, and the bounded output array.
 */
module Text {
  import opened Common
  import opened Symbols
  import opened Utf8

  /** U+2581 in UTF-8. */
  const BLOCK: bytes := [0xE2, 0x96, 0x81]

  /** Every space becomes U+2581; other bytes are copied. */
  function Escape(s: bytes): (e: bytes)
    ensures |s| <= |e| <= 3 * |s|
  {
    if s == [] then [] else (if s[0] == SPACE then BLOCK else [s[0]]) + Escape(s[1..])
  }

  lemma {:induction false} EscapeSnoc(s: bytes, b: byte)
    ensures Escape(s + [b]) == Escape(s) + (if b == SPACE then BLOCK else [b])
  {
    if s == [] {
      assert s + [b] == [b];
    } else {
      assert (s + [b])[0] == s[0] && (s + [b])[1..] == s[1..] + [b];
      EscapeSnoc(s[1..], b);
    }
  }

  lemma {:induction false} EscapeConcat(a: bytes, b: bytes)
    ensures Escape(a + b) == Escape(a) + Escape(b)
  {
    if a == [] {
      assert a + b == b;
    } else {
      assert (a + b)[0] == a[0] && (a + b)[1..] == a[1..] + b;
      EscapeConcat(a[1..], b);
      Assoc(if a[0] == SPACE then BLOCK else [a[0]], Escape(a[1..]), Escape(b));
    }
  }

  lemma {:induction false} EscapeNoSpace(w: bytes)
    requires forall i | 0 <= i < |w| :: w[i] != SPACE
    ensures Escape(w) == w
  {
    if w != [] {
      EscapeNoSpace(w[1..]);
    }
  }

  lemma EscapeChar(c: bytes)
    requires OneChar(c)
    ensures Escape(c) == (if c == [SPACE] then BLOCK else c) && OneChar(Escape(c))
  {
    if |c| > 1 {
      forall i | 0 <= i < |c| ensures c[i] != SPACE {
        if i > 0 { CharTails(c, i); }
      }
      EscapeNoSpace(c);
    } else {
      assert c == [c[0]] && c[1..] == [];
    }
  }

  /** The normaliser loop; a buffer of 3 * len + 1 bytes is never overrun. */
  method EscapeSpaces(s: bytes) returns (e: bytes)
    ensures e == Escape(s)
  {
    var esc := new byte[3 * |s| + 1];
    var el: nat := 0;
    for i := 0 to |s|
      invariant el <= 3 * i && esc[..el] == Escape(s[..i])
    {
      el := EscapeByte(s, i, esc, el);
    }
    assert s[..|s|] == s;
    return esc[..el];
  }

  /** One byte of the normaliser loop. */
  method EscapeByte(s: bytes, i: nat, esc: array<byte>, el: nat) returns (el': nat)
    requires i < |s| && esc.Length == 3 * |s| + 1 && el <= 3 * i && esc[..el] == Escape(s[..i])
    modifies esc
    ensures el' <= 3 * (i + 1) <= esc.Length && esc[..el'] == Escape(s[..i + 1])
  {
    assert s[..i + 1] == s[..i] + [s[i]];
    EscapeSnoc(s[..i], s[i]);
    if s[i] == SPACE {
      esc[el], esc[el + 1], esc[el + 2] := 0xE2, 0x96, 0x81;
      el' := el + 3;
    } else {
      esc[el] := s[i];
      el' := el + 1;
    }
  }

  datatype Lane = Gemma4 | Spm

  /**
   * The length a lead byte claims, without checking validity: g4_utf8_len for the gemma4 lane,
   * utf8_len for the SPM lane. They differ on 0xF8 and above only.
   */
  function LeadLen(lane: Lane, lead: byte): (n: nat)
    ensures 1 <= n <= 4
  {
    match lane
    case Gemma4 => if lead / 16 < 12 then 1 else if lead / 16 < 14 then 2 else if lead / 16 == 14 then 3 else 4
    case Spm =>
      if lead < 0xC0 then 1 else if lead < 0xE0 then 2 else if lead < 0xF0 then 3 else if lead < 0xF8 then 4 else 1
  }

  /** The length of the symbol at o: what its lead byte claims, or what is left. */
  method SymbolLen(lane: Lane, s: bytes, o: nat) returns (L: nat)
    requires o < |s|
    ensures 1 <= L == Min(LeadLen(lane, s[o]), |s| - o)
  {
    L := LeadLen(lane, s[o]);
    if o + L > |s| { L := |s| - o; }
  }

  /** Cut a text into symbols, each as long as its first byte claims or as what is left. */
  function Chars(s: bytes, lane: Lane): (ws: seq<bytes>)
    ensures s != [] ==> ws != []
  {
    if s == [] then [] else
    var n := Min(LeadLen(lane, s[0]), |s|);
    [s[..n]] + Chars(s[n..], lane)
  }

  /** The symbols tile the text. */
  lemma {:induction false} CharsText(s: bytes, lane: Lane)
    ensures Flatten(Chars(s, lane)) == s
  {
    if s != [] {
      var n := Min(LeadLen(lane, s[0]), |s|);
      CharsText(s[n..], lane);
      assert s == s[..n] + s[n..];
    }
  }

  lemma CharsStep(s: bytes, lane: Lane, o: nat, n: nat)
    requires o < |s| && n == Min(LeadLen(lane, s[o]), |s| - o)
    ensures Chars(s[o..], lane) == [s[o..o + n]] + Chars(s[o + n..], lane)
  {
    var t := s[o..];
    assert t[..n] == s[o..o + n] && t[n..] == s[o + n..];
  }

  /** Moving one symbol from the text still to cut to the symbols already cut. */
  lemma CharsShift(ws: seq<bytes>, s: bytes, lane: Lane, o: nat, n: nat)
    requires o < |s| && n == Min(LeadLen(lane, s[o]), |s| - o)
    requires ws + Chars(s[o..], lane) == Chars(s, lane)
    ensures (ws + [s[o..o + n]]) + Chars(s[o + n..], lane) == Chars(s, lane)
  {
    CharsStep(s, lane, o, n);
    Regroup(ws, [s[o..o + n]], Chars(s[o + n..], lane), Chars(s, lane));
  }

  /**
   * The first `ns` records describe the symbols of s[..o], linked in order; the rest of the
   * array is unused.
   */
  ghost predicate Filled<T>(sym: seq<Sym<T>>, s: bytes, ns: nat, o: nat) {
    && ns <= |sym| && o <= |s| && (ns == 0 <==> o == 0)
    && (forall i | 0 <= i < ns :: FilledAt(sym, s, ns, o, i))
    && (forall i | ns <= i < |sym| :: sym[i].n == 0)
  }

  ghost predicate FilledAt<T>(sym: seq<Sym<T>>, s: bytes, ns: nat, o: nat, i: nat)
    requires i < ns <= |sym|
  {
    var r := sym[i];
    && r.n > 0 && r.prev == i - 1 && r.off + r.n <= |s|
    && r.next == (if r.off + r.n >= |s| then -1 else i + 1)
    && r.off == (if i == 0 then 0 else sym[i - 1].off + sym[i - 1].n)
    && (i + 1 == ns ==> r.off + r.n == o)
  }

  function Counted(ns: nat): (live: seq<nat>)
    ensures |live| == ns && forall i | 0 <= i < ns :: live[i] == i
  {
    seq(ns, i => i)
  }

  lemma CountedMember(ns: nat, x: nat)
    ensures x < ns ==> x in Counted(ns)
  {
    if x < ns { assert Counted(ns)[x] == x; }
  }

  lemma {:induction false} FilledOffsets<T>(sym: seq<Sym<T>>, s: bytes, ns: nat, o: nat, i: nat)
    requires Filled(sym, s, ns, o) && i < ns
    ensures sym[i].off + sym[i].n <= o && (i + 1 < ns ==> sym[i].off + sym[i].n < o)
    decreases ns - i
  {
    assert FilledAt(sym, s, ns, o, i);
    if i + 1 < ns {
      assert FilledAt(sym, s, ns, o, i + 1);
      FilledOffsets(sym, s, ns, o, i + 1);
    }
  }

  /** Once the whole text is cut, the records form one linked list over it. */
  lemma FilledLinked<T>(sym: seq<Sym<T>>, s: bytes, ns: nat)
    requires Filled(sym, s, ns, |s|) && s != []
    ensures Linked(sym, Counted(ns), |s|)
  {
    var live := Counted(ns);
    assert FilledAt(sym, s, ns, |s|, 0);
    forall i | 0 <= i < ns ensures LinkAt(sym, live, |s|, i) {
      assert FilledAt(sym, s, ns, |s|, i);
      FilledOffsets(sym, s, ns, |s|, i);
      if i + 1 < ns { assert FilledAt(sym, s, ns, |s|, i + 1); }
    }
    forall x | 0 <= x < |sym| && x !in live ensures sym[x].n == 0 {
      CountedMember(ns, x);
    }
  }

  /** Adding one record keeps the prefix well formed. */
  lemma FilledNext<T>(sym: seq<Sym<T>>, s: bytes, ns: nat, o: nat, n: nat, tag: T)
    requires Filled(sym, s, ns, o) && ns < |sym| && n > 0 && o + n <= |s|
    ensures Filled(sym[ns := Sym(ns - 1, if o + n >= |s| then -1 else ns + 1, o, n, tag)], s, ns + 1, o + n)
  {
    var sym' := sym[ns := Sym(ns - 1, if o + n >= |s| then -1 else ns + 1, o, n, tag)];
    var ns', o' := ns + 1, o + n;
    forall i | 0 <= i < ns' ensures FilledAt(sym', s, ns', o', i) {
      if i < ns {
        assert FilledAt(sym, s, ns, o, i);
      }
      if i == ns && ns > 0 { assert FilledAt(sym, s, ns, o, ns - 1); }
    }
  }

  ghost function InitWords<T>(s: bytes, sym: seq<Sym<T>>, ns: nat): (ws: seq<bytes>)
    requires ns <= |sym|
    ensures |ws| == ns && forall i | 0 <= i < ns :: ws[i] == Span(s, sym[i])
  {
    seq(ns, i requires 0 <= i < ns => Span(s, sym[i]))
  }

  lemma InitWordsNext<T>(s: bytes, sym: seq<Sym<T>>, ns: nat, r: Sym<T>)
    requires ns < |sym|
    ensures InitWords(s, sym[ns := r], ns + 1) == InitWords(s, sym, ns) + [Span(s, r)]
  {}

  /** The first `ns` records hold the symbols of s[..o]. */
  ghost predicate CutUpTo<T>(s: bytes, lane: Lane, sym: seq<Sym<T>>, ns: nat, o: nat) {
    Filled(sym, s, ns, o) && InitWords(s, sym, ns) + Chars(s[o..], lane) == Chars(s, lane)
  }

  lemma CutStarts<T>(s: bytes, lane: Lane, sym: seq<Sym<T>>)
    requires forall i | 0 <= i < |sym| :: sym[i].n == 0
    ensures CutUpTo(s, lane, sym, 0, 0)
  {
    assert InitWords(s, sym, 0) == [] && s[0..] == s;
  }

  /** The record of one more initial symbol. */
  function InitRecord<T>(s: bytes, ns: nat, o: nat, n: nat, tag: T): Sym<T> {
    Sym(ns - 1, if o + n >= |s| then -1 else ns + 1, o, n, tag)
  }

  lemma CutNext<T>(s: bytes, lane: Lane, sym: seq<Sym<T>>, ns: nat, o: nat, n: nat, tag: T)
    requires CutUpTo(s, lane, sym, ns, o) && ns < |sym| && o < |s| && n == Min(LeadLen(lane, s[o]), |s| - o)
    ensures CutUpTo(s, lane, sym[ns := InitRecord(s, ns, o, n, tag)], ns + 1, o + n)
  {
    FilledNext(sym, s, ns, o, n, tag);
    RecordSpan(s, ns, o, n, tag);
    CutWords(s, lane, sym, ns, o, n, InitRecord(s, ns, o, n, tag));
  }

  lemma CutWords<T>(s: bytes, lane: Lane, sym: seq<Sym<T>>, ns: nat, o: nat, n: nat, r: Sym<T>)
    requires ns < |sym| && o < |s| && n == Min(LeadLen(lane, s[o]), |s| - o) && Span(s, r) == s[o..o + n]
    requires InitWords(s, sym, ns) + Chars(s[o..], lane) == Chars(s, lane)
    ensures InitWords(s, sym[ns := r], ns + 1) + Chars(s[o + n..], lane) == Chars(s, lane)
  {
    var ws, ws' := InitWords(s, sym, ns), InitWords(s, sym[ns := r], ns + 1);
    InitWordsNext(s, sym, ns, r);
    assert ws' == ws + [s[o..o + n]];
    ShiftOne(s, lane, o, n, ws, ws');
  }

  lemma ShiftOne(s: bytes, lane: Lane, o: nat, n: nat, ws: seq<bytes>, ws': seq<bytes>)
    requires o < |s| && n == Min(LeadLen(lane, s[o]), |s| - o) && ws' == ws + [s[o..o + n]]
    requires ws + Chars(s[o..], lane) == Chars(s, lane)
    ensures ws' + Chars(s[o + n..], lane) == Chars(s, lane)
  {
    CharsShift(ws, s, lane, o, n);
  }

  lemma RecordSpan<T>(s: bytes, ns: nat, o: nat, n: nat, tag: T)
    requires o + n <= |s|
    ensures Span(s, InitRecord(s, ns, o, n, tag)) == s[o..o + n]
  {}

  lemma CutDone<T>(s: bytes, lane: Lane, sym: seq<Sym<T>>, ns: nat)
    requires CutUpTo(s, lane, sym, ns, |s|) && s != []
    ensures Linked(sym, Counted(ns), |s|) && Words(s, sym, Counted(ns)) == Chars(s, lane)
  {
    FilledLinked(sym, s, ns);
    assert s[|s|..] == [];
    assert Words(s, sym, Counted(ns)) == InitWords(s, sym, ns);
  }

  method PutRecord<T>(sym: array<Sym<T>>, i: nat, r: Sym<T>)
    requires i < sym.Length
    modifies sym
    ensures sym[..] == old(sym[..])[i := r]
  {
    sym[i] := r;
  }

  /** The output of the encoders: ids beyond the capacity are counted but not stored. */
  class Sink {
    const out: array<int>
    var cnt: nat
    ghost var ids: seq<int>

    ghost predicate Valid()
      reads this, out
    {
      cnt == |ids| && forall i | 0 <= i < cnt && i < out.Length :: out[i] == ids[i]
    }

    constructor (out: array<int>)
      ensures Valid() && this.out == out && ids == []
    {
      this.out, cnt, ids := out, 0, [];
    }

    method Emit(id: int)
      requires Valid()
      modifies this, out
      ensures Valid() && ids == old(ids) + [id]
    {
      if cnt < out.Length { out[cnt] := id; }
      cnt := cnt + 1;
      ids := ids + [id];
    }
  }

  /** What the caller can tell from the count: the ids are complete exactly when they fit. */
  lemma SinkComplete(s: Sink)
    requires s.Valid()
    ensures s.cnt <= s.out.Length <==> |s.ids| <= s.out.Length && s.out[..|s.ids|] == s.ids
  {}

  /** The caller's buffer: bytes beyond cap - 1 are counted but not stored. */
  class Buffer {
    const buf: array<byte>
    var pos: nat
    ghost var text: bytes

    ghost predicate Valid()
      reads this, buf
    {
      pos == |text| && forall i | 0 <= i < pos && i + 1 < buf.Length :: buf[i] == text[i]
    }

    constructor (buf: array<byte>)
      ensures Valid() && this.buf == buf && text == []
    {
      this.buf, pos, text := buf, 0, [];
    }

    method Put(b: byte)
      requires Valid()
      modifies this, buf
      ensures Valid() && text == old(text) + [b]
    {
      if pos + 1 < buf.Length { buf[pos] := b; }
      pos := pos + 1;
      text := text + [b];
    }

    /** NUL-terminate whatever fitted. */
    method Terminate()
      requires Valid()
      modifies this, buf
      ensures Valid() && text == old(text)
      ensures buf.Length > 0 ==> buf[Min(pos, buf.Length - 1)] == 0
      ensures buf.Length > 0 ==> buf[..Min(pos, buf.Length - 1)] == text[..Min(pos, buf.Length - 1)]
    {
      if buf.Length > 0 { buf[if pos < buf.Length then pos else buf.Length - 1] := 0; }
    }
  }
}
