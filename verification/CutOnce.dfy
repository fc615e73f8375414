/** A text is cut at its specials in one way (src/tokenizer/tokenizer.c). */
module CutOnce {
  import opened Common
  import opened Specials
  import opened EncodeLaw

  /** A cut at the end of the text is empty, and at a special it begins with that. */
  lemma CutHead(spec: seq<Special>, s: bytes, pos: nat, gs: seq<Segment>)
    requires CutAtSpecials(spec, s, pos, gs)
    ensures pos <= |s| && (gs == [] <==> pos == |s|)
    ensures gs != [] && gs[0].Token? <==> exists sp :: FirstAt(spec, s, pos, sp)
  {
    if gs != [] && gs[0].Token? { assert FirstAt(spec, s, pos, gs[0].special); }
    if gs != [] && gs[0].Plain? { NoFirst(spec, s, pos); }
  }

  lemma NoFirst(spec: seq<Special>, s: bytes, pos: nat)
    requires NoneAt(spec, s, pos)
    ensures forall sp :: !FirstAt(spec, s, pos, sp)
  {
    forall j | 0 <= j < |spec| ensures !StartsAt(spec[j], s, pos) { assert spec[j] in spec; }
  }

  lemma OneFirst(spec: seq<Special>, s: bytes, pos: nat, a: Special, b: Special)
    requires FirstAt(spec, s, pos, a) && FirstAt(spec, s, pos, b)
    ensures a == b
  {
    var j :| 0 <= j < |spec| && IsFirstAt(spec, s, pos, a, j);
    var l :| 0 <= l < |spec| && IsFirstAt(spec, s, pos, b, l);
  }

  /** A text piece goes on to the next place where a special starts, or to the end. */
  lemma GapEnd(spec: seq<Special>, s: bytes, pos: nat, gs: seq<Segment>)
    requires CutAtSpecials(spec, s, pos, gs) && gs != [] && gs[0].Plain?
    ensures var e := pos + |gs[0].text|;
            && pos < e <= |s| && gs[0].text == s[pos..e]
            && NoneBetween(spec, s, pos, e) && (e == |s| || !NoneAt(spec, s, e))
  {
    var e := pos + |gs[0].text|;
    CutHead(spec, s, e, gs[1..]);
    if e < |s| {
      assert gs[1..][0] == gs[1];
      if NoneAt(spec, s, e) { NoFirst(spec, s, e); }
    }
  }

  lemma OneEnd(spec: seq<Special>, s: bytes, pos: nat, e: nat, e': nat)
    requires pos < e <= |s| && NoneBetween(spec, s, pos, e) && (e == |s| || !NoneAt(spec, s, e))
    requires pos < e' <= |s| && NoneBetween(spec, s, pos, e') && (e' == |s| || !NoneAt(spec, s, e'))
    ensures e == e'
  {}

  lemma SameText(spec: seq<Special>, s: bytes, pos: nat, gs: seq<Segment>, gs': seq<Segment>)
    requires CutAtSpecials(spec, s, pos, gs) && gs != [] && gs[0].Plain?
    requires CutAtSpecials(spec, s, pos, gs') && gs' != [] && gs'[0].Plain?
    ensures gs[0] == gs'[0]
  {
    GapEnd(spec, s, pos, gs);
    GapEnd(spec, s, pos, gs');
    OneEnd(spec, s, pos, pos + |gs[0].text|, pos + |gs'[0].text|);
  }

  /** Two cuts begin with the same piece. */
  lemma SameHead(spec: seq<Special>, s: bytes, pos: nat, gs: seq<Segment>, gs': seq<Segment>)
    requires CutAtSpecials(spec, s, pos, gs) && CutAtSpecials(spec, s, pos, gs') && gs != []
    ensures gs' != [] && gs[0] == gs'[0]
  {
    CutHead(spec, s, pos, gs);
    CutHead(spec, s, pos, gs');
    if gs[0].Token? {
      OneFirst(spec, s, pos, gs[0].special, gs'[0].special);
    } else {
      SameText(spec, s, pos, gs, gs');
    }
  }

  /** A text is cut in one way. */
  lemma {:induction false} OneCut(spec: seq<Special>, s: bytes, pos: nat, gs: seq<Segment>, gs': seq<Segment>)
    requires CutAtSpecials(spec, s, pos, gs) && CutAtSpecials(spec, s, pos, gs')
    ensures gs == gs'
    decreases |gs|
  {
    if gs == [] {
      CutHead(spec, s, pos, gs);
      CutHead(spec, s, pos, gs');
    } else {
      SameHead(spec, s, pos, gs, gs');
      OneCut(spec, s, pos + (if gs[0].Token? then |gs[0].special.surf| else |gs[0].text|), gs[1..], gs'[1..]);
      assert gs == [gs[0]] + gs[1..] && gs' == [gs'[0]] + gs'[1..];
    }
  }
}
