/**
 * The special-token pre-split that starts all three encoders (src/tokenizer/tokenizer.c,
 * src/tokenizer/gemma4_bpe.c): cut the text at special surfaces, leave the gaps to the lane.
 */
module Specials {
  import opened Common
  import opened Utf8

  datatype Special = Special(surf: bytes, id: int)

  datatype Segment = Plain(text: bytes) | Token(special: Special)

  predicate Matches(sp: Special, s: bytes, i: nat) {
    sp.surf != [] && i + |sp.surf| <= |s| && s[i..i + |sp.surf|] == sp.surf
  }

  /** The first listed special whose surface starts at position `i`. */
  function FirstMatch(spec: seq<Special>, s: bytes, i: nat): (m: Option<Special>)
    ensures m.Some? ==> m.value in spec && Matches(m.value, s, i)
    ensures m.None? ==> forall sp | sp in spec :: !Matches(sp, s, i)
  {
    if spec == [] then None
    else if Matches(spec[0], s, i) then Some(spec[0])
    else FirstMatch(spec[1..], s, i)
  }

  function PlainSegment(text: bytes): seq<Segment> { if text == [] then [] else [Plain(text)] }

  /** Cut the rest of the text, given that s[start..i] is gap text already scanned. */
  function SegmentsFrom(spec: seq<Special>, s: bytes, start: nat, i: nat): seq<Segment>
    requires start <= i <= |s|
    decreases |s| - i
  {
    if i == |s| then PlainSegment(s[start..]) else
    match FirstMatch(spec, s, i)
    case None => SegmentsFrom(spec, s, start, i + 1)
    case Some(sp) =>
      PlainSegment(s[start..i]) + [Token(sp)] + SegmentsFrom(spec, s, i + |sp.surf|, i + |sp.surf|)
  }

  function Segments(spec: seq<Special>, s: bytes): seq<Segment> { SegmentsFrom(spec, s, 0, 0) }

  function Surface(g: Segment): bytes {
    match g case Plain(text) => text case Token(sp) => sp.surf
  }

  function SurfaceText(gs: seq<Segment>): bytes {
    if gs == [] then [] else Surface(gs[0]) + SurfaceText(gs[1..])
  }

  lemma {:induction false} SurfaceConcat(a: seq<Segment>, b: seq<Segment>)
    ensures SurfaceText(a + b) == SurfaceText(a) + SurfaceText(b)
  {
    if a == [] {
      assert a + b == b;
    } else {
      assert (a + b)[0] == a[0] && (a + b)[1..] == a[1..] + b;
      SurfaceConcat(a[1..], b);
    }
  }

  lemma SurfacePlain(text: bytes)
    ensures SurfaceText(PlainSegment(text)) == text
  {
    if text != [] {
      var one := [Plain(text)];
      assert one[1..] == [];
    }
  }

  lemma SurfaceToken(sp: Special)
    ensures SurfaceText([Token(sp)]) == sp.surf
  {
    var one := [Token(sp)];
    assert one[1..] == [];
  }

  /** The segments tile the text. */
  lemma {:induction false} SegmentsText(spec: seq<Special>, s: bytes, start: nat, i: nat)
    requires start <= i <= |s|
    ensures SurfaceText(SegmentsFrom(spec, s, start, i)) == s[start..]
    decreases |s| - i
  {
    if i == |s| {
      SurfacePlain(s[start..]);
    } else {
      match FirstMatch(spec, s, i)
      case None => SegmentsText(spec, s, start, i + 1);
      case Some(sp) =>
        SegmentsHit(spec, s, start, i, sp);
        var e := i + |sp.surf|;
        SegmentsText(spec, s, e, e);
        SliceThree(s, start, i, e);
        HitText(s[start..i], sp, SegmentsFrom(spec, s, e, e), s[e..], s[start..]);
    }
  }

  /** What a special found at i makes of the rest of the text. */
  lemma SegmentsHit(spec: seq<Special>, s: bytes, start: nat, i: nat, sp: Special)
    requires start <= i < |s| && FirstMatch(spec, s, i) == Some(sp)
    ensures 0 < |sp.surf| && i + |sp.surf| <= |s| && s[i..i + |sp.surf|] == sp.surf
    ensures SegmentsFrom(spec, s, start, i)
         == PlainSegment(s[start..i]) + [Token(sp)] + SegmentsFrom(spec, s, i + |sp.surf|, i + |sp.surf|)
  {}

  lemma SurfaceThree(a: seq<Segment>, b: seq<Segment>, c: seq<Segment>)
    ensures SurfaceText(a + b + c) == SurfaceText(a) + SurfaceText(b) + SurfaceText(c)
  {
    SurfaceConcat(a + b, c);
    SurfaceConcat(a, b);
  }

  lemma HitText(gap: bytes, sp: Special, rest: seq<Segment>, tail: bytes, whole: bytes)
    requires SurfaceText(rest) == tail && gap + sp.surf + tail == whole
    ensures SurfaceText(PlainSegment(gap) + [Token(sp)] + rest) == whole
  {
    SurfaceThree(PlainSegment(gap), [Token(sp)], rest);
    SurfacePlain(gap);
    SurfaceToken(sp);
  }

  lemma SliceThree(s: bytes, a: nat, b: nat, c: nat)
    requires a <= b <= c <= |s|
    ensures s[a..b] + s[b..c] + s[c..] == s[a..]
  {}

  /** Specials come sorted longest first, so the special taken is a longest one that matches. */
  lemma {:induction false} LongestFirst(spec: seq<Special>, s: bytes, i: nat)
    requires forall a, b | 0 <= a < b < |spec| :: |spec[a].surf| >= |spec[b].surf|
    ensures FirstMatch(spec, s, i).Some? ==>
      forall sp | sp in spec && Matches(sp, s, i) :: |sp.surf| <= |FirstMatch(spec, s, i).value.surf|
  {
    if spec != [] && !Matches(spec[0], s, i) {
      LongestFirst(spec[1..], s, i);
    }
  }

  /** Without specials the whole text is one gap. */
  lemma {:induction false} NoSpecials(s: bytes, start: nat, i: nat)
    requires start <= i <= |s|
    ensures SegmentsFrom([], s, start, i) == PlainSegment(s[start..])
    decreases |s| - i
  {
    if i < |s| {
      NoSpecials(s, start, i + 1);
    }
  }

  // ---- texts put together from segments ----

  /** The loaders take the surface of a special from its token. */
  predicate FromVocab(tok: seq<bytes>, spec: seq<Special>) {
    forall sp | sp in spec :: 0 <= sp.id < |tok| && tok[sp.id] == sp.surf
  }

  lemma {:induction false} TokensAreListed(spec: seq<Special>, s: bytes, start: nat, i: nat)
    requires start <= i <= |s|
    ensures forall g | g in SegmentsFrom(spec, s, start, i) && g.Token? :: g.special in spec && g.special.surf != []
    decreases |s| - i
  {
    if i < |s| {
      match FirstMatch(spec, s, i)
      case None => TokensAreListed(spec, s, start, i + 1);
      case Some(sp) => TokensAreListed(spec, s, i + |sp.surf|, i + |sp.surf|);
    }
  }

  /** Two texts differ at a place that both have, so whatever follows them. */
  predicate Differs(a: bytes, b: bytes) { exists j :: 0 <= j < |a| && j < |b| && a[j] != b[j] }

  lemma DiffersStays(a: bytes, x: bytes, b: bytes, y: bytes)
    requires Differs(a, b)
    ensures a + x != b + y
  {
    var j :| 0 <= j < |a| && j < |b| && a[j] != b[j];
    assert (a + x)[j] == a[j] && (b + y)[j] == b[j];
  }

  lemma {:induction false} SurfaceLength(gs: seq<Segment>, texts: seq<bytes>)
    requires |texts| == |gs| && forall i | 0 <= i < |gs| :: |texts[i]| <= |Surface(gs[i])|
    ensures |Flatten(texts)| <= |SurfaceText(gs)|
  {
    if gs != [] { SurfaceLength(gs[1..], texts[1..]); }
  }

  /** Texts none of which is longer than its surface make up the surfaces only if each is its surface. */
  lemma {:induction false} ShorterIff(gs: seq<Segment>, texts: seq<bytes>)
    requires |texts| == |gs| && forall i | 0 <= i < |gs| :: |texts[i]| <= |Surface(gs[i])|
    ensures Flatten(texts) == SurfaceText(gs) <==> forall i | 0 <= i < |gs| :: texts[i] == Surface(gs[i])
  {
    if gs != [] {
      ShorterIff(gs[1..], texts[1..]);
      SurfaceLength(gs[1..], texts[1..]);
      HeadsAgree(texts[0], Surface(gs[0]), Flatten(texts[1..]), SurfaceText(gs[1..]));
      FirstAndRest(gs, texts);
    }
  }

  /** So do texts each of which is its surface or differs from it. */
  lemma {:induction false} DifferingIff(gs: seq<Segment>, texts: seq<bytes>)
    requires |texts| == |gs|
    requires forall i | 0 <= i < |gs| :: texts[i] == Surface(gs[i]) || Differs(texts[i], Surface(gs[i]))
    ensures Flatten(texts) == SurfaceText(gs) <==> forall i | 0 <= i < |gs| :: texts[i] == Surface(gs[i])
  {
    if gs != [] {
      DifferingIff(gs[1..], texts[1..]);
      if Differs(texts[0], Surface(gs[0])) {
        DiffersStays(texts[0], Flatten(texts[1..]), Surface(gs[0]), SurfaceText(gs[1..]));
        DiffersStays(texts[0], [], Surface(gs[0]), []);
        assert texts[0] + [] == texts[0] && Surface(gs[0]) + [] == Surface(gs[0]);
      } else {
        HeadsAgree(texts[0], Surface(gs[0]), Flatten(texts[1..]), SurfaceText(gs[1..]));
        FirstAndRest(gs, texts);
      }
    }
  }

  lemma HeadsAgree(a: bytes, b: bytes, x: bytes, y: bytes)
    requires (|a| <= |b| && |x| <= |y|) || a == b
    ensures a + x == b + y <==> a == b && x == y
  {
    if a + x == b + y {
      assert |a| == |b|;
      assert a == (a + x)[..|a|] == b && x == (a + x)[|a|..] == y;
    }
  }

  lemma FirstAndRest(gs: seq<Segment>, texts: seq<bytes>)
    requires |texts| == |gs| > 0
    ensures (forall i | 0 <= i < |gs| :: texts[i] == Surface(gs[i]))
       <==> texts[0] == Surface(gs[0]) && forall i | 0 <= i < |gs| - 1 :: texts[1..][i] == Surface(gs[1..][i])
  {
    if texts[0] == Surface(gs[0]) && forall i | 0 <= i < |gs| - 1 :: texts[1..][i] == Surface(gs[1..][i]) {
      forall i | 0 <= i < |gs| ensures texts[i] == Surface(gs[i]) {
        if i > 0 { assert texts[1..][i - 1] == Surface(gs[1..][i - 1]); }
      }
    }
  }

  // ---- well-formed text is cut between characters ----

  predicate WholeSurfaces(spec: seq<Special>) { forall sp | sp in spec :: WellFormed(sp.surf) }

  lemma {:induction false} SkipMisses(spec: seq<Special>, s: bytes, start: nat, i: nat, m: nat)
    requires start <= i <= m <= |s| && forall j: nat | i <= j < m :: FirstMatch(spec, s, j).None?
    ensures SegmentsFrom(spec, s, start, i) == SegmentsFrom(spec, s, start, m)
    decreases m - i
  {
    if i < m { SkipMisses(spec, s, start, i + 1, m); }
  }

  lemma SurfaceLead(sp: Special, s: bytes, j: nat)
    requires Matches(sp, s, j) && WellFormed(sp.surf)
    ensures j < |s| && !Tail(s[j])
  {
    assert sp.surf[0] == s[j];
  }

  /** No surface starts inside a character. */
  lemma NoneInside(spec: seq<Special>, s: bytes, j: nat)
    requires WholeSurfaces(spec) && j < |s|
    ensures FirstMatch(spec, s, j).Some? ==> !Tail(s[j])
  {
    var m := FirstMatch(spec, s, j);
    if m.Some? { SurfaceLead(m.value, s, j); }
  }

  lemma MissChar(spec: seq<Special>, s: bytes, start: nat, i: nat, n: nat)
    requires WholeSurfaces(spec) && start <= i < |s| && n == CharLen(s[i..]) > 0 && FirstMatch(spec, s, i).None?
    ensures i + n <= |s| && SegmentsFrom(spec, s, start, i) == SegmentsFrom(spec, s, start, i + n)
  {
    FirstChar(s[i..]);
    forall j: nat | i <= j < i + n ensures FirstMatch(spec, s, j).None? {
      if j > i {
        CharTails(s[i..][..n], j - i);
        NoneInside(spec, s, j);
      }
    }
    SkipMisses(spec, s, start, i, i + n);
  }

  lemma GapGrows(s: bytes, start: nat, i: nat, n: nat)
    requires start <= i < |s| && n == CharLen(s[i..]) > 0 && WellFormed(s[start..i]) && WellFormed(s[i..])
    ensures i + n <= |s| && WellFormed(s[start..i + n]) && WellFormed(s[i + n..])
  {
    var t := s[i..];
    FirstChar(t);
    OneCharWellFormed(t[..n]);
    assert s[start..i + n] == s[start..i] + t[..n] && s[i + n..] == t[n..];
    WellFormedConcat(s[start..i], t[..n]);
  }

  predicate AllWhole(gs: seq<Segment>) { forall g | g in gs :: WellFormed(Surface(g)) }

  lemma HitWhole(gap: bytes, sp: Special, rest: seq<Segment>, whole: seq<Segment>)
    requires WellFormed(gap) && WellFormed(sp.surf) && whole == PlainSegment(gap) + [Token(sp)] + rest
    ensures AllWhole(rest) ==> AllWhole(whole)
  {}

  /** After a surface the text goes on between characters. */
  lemma AfterSurface(s: bytes, i: nat, sp: Special)
    requires i < |s| && Matches(sp, s, i) && WellFormed(sp.surf) && WellFormed(s[i..])
    ensures WellFormed(s[i + |sp.surf|..])
  {
    assert s[i..] == sp.surf + s[i + |sp.surf|..];
    DropWellFormed(sp.surf, s[i + |sp.surf|..]);
  }

  lemma LastGap(s: bytes, start: nat)
    requires start <= |s| && WellFormed(s[start..|s|])
    ensures AllWhole(PlainSegment(s[start..]))
  {
    assert s[start..|s|] == s[start..];
  }

  /** The scan is at i, the gap it is in started at `start`, and both are between characters. */
  predicate Between(s: bytes, start: nat, i: nat) {
    start <= i <= |s| && WellFormed(s[start..i]) && WellFormed(s[i..])
  }

  lemma BetweenGap(s: bytes, start: nat, i: nat) returns (gap: bytes)
    requires Between(s, start, i)
    ensures start <= i <= |s| && gap == s[start..i] && WellFormed(gap)
  {
    gap := s[start..i];
  }

  lemma BetweenAfter(s: bytes, start: nat, i: nat, sp: Special)
    requires Between(s, start, i) && i < |s| && Matches(sp, s, i) && WellFormed(sp.surf)
    ensures i + |sp.surf| <= |s| && Between(s, i + |sp.surf|, i + |sp.surf|)
  {
    AfterSurface(s, i, sp);
    assert s[i + |sp.surf|..i + |sp.surf|] == [];
  }

  lemma WholeHit(spec: seq<Special>, s: bytes, start: nat, i: nat, sp: Special, gap: bytes)
    requires start <= i < |s| && FirstMatch(spec, s, i) == Some(sp) && gap == s[start..i]
    requires WellFormed(gap) && WellFormed(sp.surf)
    ensures i + |sp.surf| <= |s|
    ensures AllWhole(SegmentsFrom(spec, s, i + |sp.surf|, i + |sp.surf|)) ==> AllWhole(SegmentsFrom(spec, s, start, i))
  {
    SegmentsHit(spec, s, start, i, sp);
    HitWhole(gap, sp, SegmentsFrom(spec, s, i + |sp.surf|, i + |sp.surf|), SegmentsFrom(spec, s, start, i));
  }

  lemma AfterHit(spec: seq<Special>, s: bytes, start: nat, i: nat, sp: Special) returns (e: nat)
    requires Between(s, start, i) && i < |s| && FirstMatch(spec, s, i) == Some(sp) && WellFormed(sp.surf)
    ensures i < e <= |s| && Between(s, e, e)
    ensures AllWhole(SegmentsFrom(spec, s, e, e)) ==> AllWhole(SegmentsFrom(spec, s, start, i))
  {
    e := i + |sp.surf|;
    var gap := BetweenGap(s, start, i);
    WholeHit(spec, s, start, i, sp, gap);
    BetweenAfter(s, start, i, sp);
  }

  lemma AfterMiss(spec: seq<Special>, s: bytes, start: nat, i: nat) returns (e: nat)
    requires WholeSurfaces(spec) && Between(s, start, i) && i < |s| && FirstMatch(spec, s, i).None?
    ensures i < e <= |s| && Between(s, start, e)
    ensures SegmentsFrom(spec, s, start, i) == SegmentsFrom(spec, s, start, e)
  {
    var n := CharLen(s[i..]);
    e := i + n;
    GapGrows(s, start, i, n);
    MissChar(spec, s, start, i, n);
  }

  lemma {:induction false} SegmentsAreWhole(spec: seq<Special>, s: bytes, start: nat, i: nat)
    requires WholeSurfaces(spec) && Between(s, start, i)
    ensures AllWhole(SegmentsFrom(spec, s, start, i))
    decreases |s| - i
  {
    if i == |s| {
      LastGap(s, start);
    } else {
      match FirstMatch(spec, s, i)
      case None =>
        var e := AfterMiss(spec, s, start, i);
        SegmentsAreWhole(spec, s, start, e);
      case Some(sp) =>
        var e := AfterHit(spec, s, start, i, sp);
        SegmentsAreWhole(spec, s, e, e);
    }
  }

  lemma WholeSegments(spec: seq<Special>, s: bytes)
    requires WholeSurfaces(spec) && WellFormed(s)
    ensures AllWhole(Segments(spec, s))
  {
    assert s[0..0] == [] && s[0..] == s;
    SegmentsAreWhole(spec, s, 0, 0);
  }

  // ---- the scan ----

  /** The segments found so far and those of the rest make up the whole. */
  predicate Scanned(list: seq<Special>, s: bytes, whole: seq<Segment>, gs: seq<Segment>, start: nat, i: nat) {
    start <= i <= |s| && gs + SegmentsFrom(list, s, start, i) == whole
  }

  lemma HitJoin(gs: seq<Segment>, hit: seq<Segment>, rest: seq<Segment>, here: seq<Segment>, whole: seq<Segment>,
                gs': seq<Segment>)
    requires gs + here == whole && here == hit + rest && gs' == gs + hit
    ensures gs' + rest == whole
  {
    Regroup(gs, hit, rest, whole);
  }

  lemma HitStep(list: seq<Special>, s: bytes, whole: seq<Segment>, gs: seq<Segment>, start: nat, i: nat, sp: Special,
                hit: seq<Segment>, e: nat)
    requires i < |s| && Scanned(list, s, whole, gs, start, i) && FirstMatch(list, s, i) == Some(sp)
    requires hit == PlainSegment(s[start..i]) + [Token(sp)] && e == i + |sp.surf|
    ensures i < e && Scanned(list, s, whole, gs + hit, e, e)
  {
    SegmentsHit(list, s, start, i, sp);
    HitJoin(gs, hit, SegmentsFrom(list, s, e, e), SegmentsFrom(list, s, start, i), whole, gs + hit);
  }

  /** The scanning loop; with parsing off the list is not consulted. */
  method Split(spec: seq<Special>, s: bytes, parse: bool) returns (gs: seq<Segment>)
    ensures gs == Segments(if parse then spec else [], s)
  {
    ghost var list := if parse then spec else [];
    ghost var whole := Segments(list, s);
    gs := [];
    var start: nat, i: nat := 0, 0;
    while i < |s|
      invariant Scanned(list, s, whole, gs, start, i)
      decreases |s| - i
    {
      gs, start, i := Step(spec, list, s, parse, gs, start, i, whole);
    }
    gs := gs + PlainSegment(s[start..]);
  }

  lemma MissStep(list: seq<Special>, s: bytes, whole: seq<Segment>, gs: seq<Segment>, start: nat, i: nat)
    requires i < |s| && Scanned(list, s, whole, gs, start, i) && FirstMatch(list, s, i).None?
    ensures Scanned(list, s, whole, gs, start, i + 1)
  {}

  /** One position of the scan: a special found there closes the gap before it. */
  method Step(spec: seq<Special>, ghost list: seq<Special>, s: bytes, parse: bool, gs: seq<Segment>, start: nat, i: nat,
              ghost whole: seq<Segment>)
    returns (gs': seq<Segment>, start': nat, i': nat)
    requires i < |s| && list == (if parse then spec else []) && Scanned(list, s, whole, gs, start, i)
    ensures i < i' && Scanned(list, s, whole, gs', start', i')
  {
    gs', start', i' := gs, start, i + 1;
    if parse {
      var m := FindMatch(spec, s, i);
      if m.Some? {
        i' := i + |m.value.surf|;
        var hit := PlainSegment(s[start..i]) + [Token(m.value)];
        HitStep(list, s, whole, gs, start, i, m.value, hit, i');
        gs', start' := gs + hit, i';
        return;
      }
    }
    MissStep(list, s, whole, gs, start, i);
  }

  method FindMatch(spec: seq<Special>, s: bytes, i: nat) returns (m: Option<Special>)
    requires i <= |s|
    ensures m == FirstMatch(spec, s, i)
  {
    assert spec[0..] == spec;
    for k := 0 to |spec|
      invariant FirstMatch(spec, s, i) == FirstMatch(spec[k..], s, i)
    {
      if Matches(spec[k], s, i) { return Some(spec[k]); }
      assert spec[k..][1..] == spec[k + 1..];
    }
    return None;
  }
}
