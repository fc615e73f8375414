/** Text operations of Rust's `str` that the OKF reader and writer use: trim, lines, split_once, split. */
module OkfText {
  import opened Common

  const NL: char := '\n'
  const RET: char := '\r'

  /** `char::is_whitespace`. */
  predicate White(c: char) {
    var x := c as int;
    9 <= x <= 13 || x == 32 || x == 0x85 || x == 0xA0 || x == 0x1680 || 0x2000 <= x <= 0x200A
    || x == 0x2028 || x == 0x2029 || x == 0x202F || x == 0x205F || x == 0x3000
  }

  predicate AllWhite(s: string) { forall i | 0 <= i < |s| :: White(s[i]) }

  // ---- trim ----

  function TrimStart(s: string): string {
    if s != [] && White(s[0]) then TrimStart(s[1..]) else s
  }

  function TrimEnd(s: string): string
    decreases |s|
  {
    if s != [] && White(s[|s| - 1]) then TrimEnd(s[..|s| - 1]) else s
  }

  function Trim(s: string): string { TrimEnd(TrimStart(s)) }

  /** Neither end is white. */
  predicate Bare(s: string) { s == [] || (!White(s[0]) && !White(s[|s| - 1])) }

  lemma {:induction false} TrimStartSplits(s: string) returns (w: string)
    ensures AllWhite(w) && s == w + TrimStart(s) && (TrimStart(s) == [] || !White(TrimStart(s)[0]))
  {
    if s != [] && White(s[0]) {
      var v := TrimStartSplits(s[1..]);
      w := [s[0]] + v;
    } else {
      w := [];
    }
  }

  lemma {:induction false} TrimEndSplits(s: string) returns (w: string)
    ensures AllWhite(w) && s == TrimEnd(s) + w && (TrimEnd(s) == [] || !White(TrimEnd(s)[|TrimEnd(s)| - 1]))
    decreases |s|
  {
    if s != [] && White(s[|s| - 1]) {
      var v := TrimEndSplits(s[..|s| - 1]);
      w := v + [s[|s| - 1]];
    } else {
      w := [];
    }
  }

  /** A text is its trimmed core between white margins. */
  lemma TrimSplits(s: string) returns (w: string, v: string)
    ensures AllWhite(w) && AllWhite(v) && s == w + Trim(s) + v && Bare(Trim(s))
  {
    w := TrimStartSplits(s);
    var t := TrimStart(s);
    v := TrimEndSplits(t);
    var core := TrimEnd(t);
    if core != [] { assert t[0] == core[0]; }
    Assoc(w, core, v);
  }

  lemma {:induction false} TrimStartSkips(w: string, t: string)
    requires AllWhite(w)
    ensures TrimStart(w + t) == TrimStart(t)
  {
    if w == [] {
      assert w + t == t;
    } else {
      assert (w + t)[1..] == w[1..] + t;
      TrimStartSkips(w[1..], t);
    }
  }

  lemma {:induction false} TrimEndSkips(t: string, w: string)
    requires AllWhite(w)
    ensures TrimEnd(t + w) == TrimEnd(t)
    decreases |w|
  {
    if w == [] {
      assert t + w == t;
    } else {
      var k := |w| - 1;
      assert (t + w)[..|t + w| - 1] == t + w[..k];
      TrimEndSkips(t, w[..k]);
    }
  }

  lemma {:induction false} WhiteTrimsAway(w: string)
    requires AllWhite(w)
    ensures TrimStart(w) == []
  {
    if w != [] { WhiteTrimsAway(w[1..]); }
  }

  /** Trimming a core between white margins leaves the core. */
  lemma TrimSandwich(w: string, t: string, v: string)
    requires AllWhite(w) && AllWhite(v) && Bare(t)
    ensures Trim(w + t + v) == t
  {
    Assoc(w, t, v);
    TrimStartSkips(w, t + v);
    if t == [] {
      assert t + v == v;
      WhiteTrimsAway(v);
    } else {
      assert (t + v)[0] == t[0];
      TrimEndSkips(t, v);
    }
  }

  lemma TrimBare(s: string)
    ensures Bare(s) ==> Trim(s) == s
    ensures Bare(Trim(s))
  {
    if Bare(s) {
      TrimSandwich([], s, []);
      assert [] + s + [] == s;
    }
    var w, v := TrimSplits(s);
  }

  /** White margins do not matter to trim. */
  lemma TrimMargins(w: string, s: string, v: string)
    requires AllWhite(w) && AllWhite(v)
    ensures Trim(w + s + v) == Trim(s)
  {
    var a, b := TrimSplits(s);
    assert w + s + v == (w + a) + Trim(s) + (b + v);
    TrimSandwich(w + a, Trim(s), b + v);
  }

  // ---- lines ----

  function IndexOf(s: string, c: char): (i: nat)
    ensures i <= |s| && (i < |s| ==> s[i] == c) && forall x | 0 <= x < i :: s[x] != c
  {
    if s == [] || s[0] == c then 0 else 1 + IndexOf(s[1..], c)
  }

  function StripReturn(s: string): (t: string)
    ensures |t| <= |s|
  {
    if s != [] && s[|s| - 1] == RET then s[..|s| - 1] else s
  }

  /** `str::lines`: a line ends at LF or CR LF; no empty line after the last LF. */
  function Lines(s: string): seq<string>
    decreases |s|
  {
    if s == [] then [] else
      var i := IndexOf(s, NL);
      if i == |s| then [s] else [StripReturn(s[..i])] + Lines(s[i + 1..])
  }

  /** Every line followed by LF. */
  function Unlines(ls: seq<string>): string {
    if ls == [] then [] else ls[0] + [NL] + Unlines(ls[1..])
  }

  predicate OneLine(s: string) { NL !in s }

  lemma {:induction false} IndexAfter(a: string, c: char, b: string)
    requires c !in a
    ensures IndexOf(a + [c] + b, c) == |a|
  {
    if a == [] {
      assert (a + [c] + b)[0] == c;
    } else {
      assert (a + [c] + b)[1..] == a[1..] + [c] + b && (a + [c] + b)[0] == a[0];
      IndexAfter(a[1..], c, b);
    }
  }

  lemma LinesHead(a: string, b: string)
    requires OneLine(a)
    ensures Lines(a + [NL] + b) == [StripReturn(a)] + Lines(b)
  {
    var s := a + [NL] + b;
    IndexAfter(a, NL, b);
    assert s[..|a|] == a && s[|a| + 1..] == b;
  }

  function Stripped(ls: seq<string>): (r: seq<string>)
    ensures |r| == |ls|
  {
    if ls == [] then [] else [StripReturn(ls[0])] + Stripped(ls[1..])
  }

  /** Lines written one per line read back as they were, but for a CR at their end. */
  lemma {:induction false} LinesOfUnlines(ls: seq<string>, rest: string)
    requires forall i | 0 <= i < |ls| :: OneLine(ls[i])
    ensures Lines(Unlines(ls) + rest) == Stripped(ls) + Lines(rest)
  {
    if ls == [] {
      assert Unlines(ls) + rest == rest;
    } else {
      var more, head := Unlines(ls[1..]), ls[0] + [NL];
      Assoc(head, more, rest);
      LinesHead(ls[0], more + rest);
      LinesOfUnlines(ls[1..], rest);
      Assoc([StripReturn(ls[0])], Stripped(ls[1..]), Lines(rest));
    }
  }

  /** Lines of two texts, the first of which ends its last line. */
  lemma {:induction false} LinesConcat(a: string, b: string)
    requires a == [] || a[|a| - 1] == NL
    ensures Lines(a + b) == Lines(a) + Lines(b)
    decreases |a|
  {
    if a == [] {
      assert a + b == b;
    } else {
      var i := IndexOf(a, NL);
      assert i < |a|;
      var l, t := a[..i], a[i + 1..];
      assert a == l + [NL] + t;
      LinesConcat(t, b);
      LinesConcatStep(l, t, b);
    }
  }

  lemma LinesConcatStep(l: string, t: string, b: string)
    requires OneLine(l) && Lines(t + b) == Lines(t) + Lines(b)
    ensures Lines(l + [NL] + t + b) == Lines(l + [NL] + t) + Lines(b)
  {
    LinesHead(l, t);
    LinesHead(l, t + b);
    Assoc(l + [NL], t, b);
    Assoc([StripReturn(l)], Lines(t), Lines(b));
  }

  lemma {:induction false} LinesAreOneLine(s: string)
    ensures forall l | l in Lines(s) :: OneLine(l)
    decreases |s|
  {
    if s != [] {
      var i := IndexOf(s, NL);
      if i < |s| { LinesAreOneLine(s[i + 1..]); }
    }
  }

  lemma {:induction false} UnlinesConcat(a: seq<string>, b: seq<string>)
    ensures Unlines(a + b) == Unlines(a) + Unlines(b)
  {
    if a == [] {
      assert a + b == b;
    } else {
      assert (a + b)[1..] == a[1..] + b;
      UnlinesConcat(a[1..], b);
      Assoc(a[0] + [NL], Unlines(a[1..]), Unlines(b));
    }
  }

  lemma TrimOneLine(s: string)
    requires OneLine(s)
    ensures OneLine(Trim(s))
  {
    var w, v := TrimSplits(s);
    forall i | 0 <= i < |Trim(s)| ensures Trim(s)[i] != NL {
      assert s[|w| + i] == Trim(s)[i];
    }
  }

  lemma TrimStripReturn(s: string)
    ensures Trim(StripReturn(s)) == Trim(s)
  {
    if StripReturn(s) != s {
      var t := StripReturn(s);
      assert s == [] + t + [RET];
      TrimMargins([], t, [RET]);
    }
  }

  // ---- CR LF ----

  /** What reading lines and writing them again does: each CR right before an LF disappears. */
  function DropReturns(s: string): (t: string)
    ensures |t| <= |s|
  {
    if s == [] then []
    else if s[0] == RET && |s| > 1 && s[1] == NL then DropReturns(s[1..])
    else [s[0]] + DropReturns(s[1..])
  }

  predicate HasCrLf(s: string) { exists i | 0 <= i < |s| - 1 :: CrLfAt(s, i) }

  predicate CrLfAt(s: string, i: nat) { i + 1 < |s| && s[i] == RET && s[i + 1] == NL }

  lemma {:induction false} DropsNothingIff(s: string)
    ensures DropReturns(s) == s <==> !HasCrLf(s)
    ensures HasCrLf(s) ==> |DropReturns(s)| < |s|
  {
    if s != [] {
      DropsNothingIff(s[1..]);
      if HasCrLf(s[1..]) {
        var i :| 0 <= i < |s[1..]| - 1 && CrLfAt(s[1..], i);
        assert CrLfAt(s, i + 1);
      }
      if HasCrLf(s) && !HasCrLf(s[1..]) {
        var i :| 0 <= i < |s| - 1 && CrLfAt(s, i);
        assert i > 0 ==> CrLfAt(s[1..], i - 1);
      }
      assert CrLfAt(s, 0) ==> HasCrLf(s);
    }
  }

  /** Dropping returns works piece by piece unless the cut is inside a CR LF. */
  lemma {:induction false} DropConcat(a: string, b: string)
    requires a == [] || b == [] || !(a[|a| - 1] == RET && b[0] == NL)
    ensures DropReturns(a + b) == DropReturns(a) + DropReturns(b)
  {
    if a == [] {
      assert a + b == b;
    } else if b == [] {
      assert a + b == a;
      assert DropReturns(a) + [] == DropReturns(a);
    } else {
      assert (a + b)[1..] == a[1..] + b;
      if |a| > 1 {
        DropConcat(a[1..], b);
      } else {
        assert a[1..] + b == b && DropReturns(a) == a;
      }
    }
  }

  lemma {:induction false} DropLine(a: string)
    requires OneLine(a)
    ensures DropReturns(a + [NL]) == StripReturn(a) + [NL]
  {
    if a == [] {
      assert a + [NL] == [NL];
      assert DropReturns([NL]) == [NL];
    } else if a == [RET] {
      assert (a + [NL])[1..] == [NL];
      assert DropReturns([NL]) == [NL];
    } else {
      assert (a + [NL])[1..] == a[1..] + [NL];
      assert |a| > 1 ==> (a + [NL])[1] == a[1];
      DropLine(a[1..]);
      if |a| > 1 { assert StripReturn(a) == [a[0]] + StripReturn(a[1..]); }
    }
  }

  /** Reading a text that ends in LF and writing its lines drops the CR of every CR LF. */
  lemma {:induction false} UnlinesOfLines(s: string)
    requires s == [] || s[|s| - 1] == NL
    ensures Unlines(Lines(s)) == DropReturns(s)
    decreases |s|
  {
    if s != [] {
      var i := IndexOf(s, NL);
      assert i < |s|;
      var a, b := s[..i], s[i + 1..];
      assert s == (a + [NL]) + b;
      UnlinesOfLines(b);
      DropLine(a);
      DropConcat(a + [NL], b);
      assert Lines(s)[1..] == Lines(b);
    }
  }

  lemma {:induction false} DropWhite(w: string)
    requires AllWhite(w)
    ensures AllWhite(DropReturns(w))
  {
    if w != [] { DropWhite(w[1..]); }
  }

  lemma {:induction false} DropKeepsEnds(t: string)
    requires t != [] && !White(t[0]) && !White(t[|t| - 1])
    ensures DropReturns(t) != [] && DropReturns(t)[0] == t[0] && DropReturns(t)[|DropReturns(t)| - 1] == t[|t| - 1]
  {
    assert DropReturns(t) == [t[0]] + DropReturns(t[1..]);
    DropKeepsLast(t);
  }

  lemma {:induction false} DropKeepsLast(t: string)
    requires t != [] && !White(t[|t| - 1])
    ensures DropReturns(t) != [] && DropReturns(t)[|DropReturns(t)| - 1] == t[|t| - 1]
  {
    if |t| > 1 { DropKeepsLast(t[1..]); }
  }

  /** Trimming after dropping returns is dropping returns from the trimmed text. */
  lemma TrimDrop(s: string)
    ensures Trim(DropReturns(s)) == DropReturns(Trim(s))
  {
    var w, v := TrimSplits(s);
    var t := Trim(s);
    DropWhite(w);
    DropWhite(v);
    if t == [] {
      assert s == w + v;
      DropWhite(w + v);
      TrimSandwich(DropReturns(s), [], []);
      assert DropReturns(s) + [] + [] == DropReturns(s);
    } else {
      DropConcat(w + t, v);
      DropConcat(w, t);
      DropKeepsEnds(t);
      TrimSandwich(DropReturns(w), DropReturns(t), DropReturns(v));
    }
  }

  /** A trimmed text survives dropping returns exactly when it holds no CR LF. */
  lemma TrimDropIff(s: string)
    ensures Trim(DropReturns(s)) == Trim(s) <==> !HasCrLf(Trim(s))
  {
    TrimDrop(s);
    DropsNothingIff(Trim(s));
  }

  /** A text is never its own reading behind something in front. */
  lemma {:induction false} NeverCatchesUp(front: string, t: string)
    requires front != [] && t != [] && !White(t[0])
    ensures t != front + DropReturns(t)
    decreases |t|
  {
    if t == front + DropReturns(t) {
      var u := DropReturns(t);
      assert u[0] == t[0] == front[0];
      DropConcat(front, u);
      AfterFront(front, u);
      NeverCatchesUp(DropReturns(front), u);
    }
  }

  lemma AfterFront(front: string, u: string)
    requires front != [] && !White(front[0])
    ensures |u| < |front + u| && DropReturns(front) != []
  {}

  /** A text read behind other text never trims to its own core. */
  lemma ReadBehind(front: string, text: string)
    requires !AllWhite(front) && (front[|front| - 1] == NL)
    ensures Trim(front + DropReturns(text + [NL])) != Trim(text)
  {
    var w, v := TrimSplits(text);
    var t := Trim(text);
    if t == [] {
      KeepsDark(front, DropReturns(text + [NL]));
    } else {
      DropAround(w, t, v);
      ReadBehindCore(front, DropReturns(w), t, DropReturns(v + [NL]));
      Regrouped(front, DropReturns(w), DropReturns(t), DropReturns(v + [NL]));
    }
  }

  lemma Regrouped(a: string, b: string, c: string, d: string)
    ensures a + (b + c + d) == (a + b) + c + d
  {}

  lemma ReadBehindCore(front: string, w: string, t: string, v: string)
    requires !AllWhite(front) && t != [] && Bare(t) && AllWhite(v)
    ensures Trim((front + w) + DropReturns(t) + v) != t
  {
    DropKeepsEnds(t);
    DarkFront(front, w);
    TrimBehind(front + w, DropReturns(t), v);
    NeverCatchesUp(TrimStart(front + w), t);
  }

  lemma DarkFront(a: string, b: string)
    requires !AllWhite(a)
    ensures !AllWhite(a + b) && TrimStart(a + b) != []
  {
    var i :| 0 <= i < |a| && !White(a[i]);
    assert (a + b)[i] == a[i];
    var w := TrimStartSplits(a + b);
    assert TrimStart(a + b) == [] ==> w + [] == w;
  }

  lemma KeepsDark(a: string, b: string)
    requires !AllWhite(a)
    ensures Trim(a + b) != []
  {
    DarkFront(a, b);
    var w, v := TrimSplits(a + b);
    assert Trim(a + b) == [] ==> w + [] + v == w + v && AllWhite(w + v);
  }

  lemma DropAround(w: string, t: string, v: string)
    requires AllWhite(w) && AllWhite(v) && t != [] && Bare(t)
    ensures DropReturns(w + t + v + [NL]) == DropReturns(w) + DropReturns(t) + DropReturns(v + [NL])
    ensures AllWhite(DropReturns(v + [NL]))
  {
    assert w + t + v + [NL] == (w + t) + (v + [NL]);
    DropConcat(w + t, v + [NL]);
    DropConcat(w, t);
    DropWhite(v + [NL]);
  }

  lemma TrimBehind(p: string, t: string, v: string)
    requires TrimStart(p) != [] && t != [] && !White(t[|t| - 1]) && AllWhite(v)
    ensures Trim(p + t + v) == TrimStart(p) + t
  {
    var w := TrimStartSplits(p);
    TrimCore(w, TrimStart(p), t, v, p);
  }

  lemma TrimCore(w: string, c: string, t: string, v: string, p: string)
    requires AllWhite(w) && AllWhite(v) && p == w + c && c != [] && !White(c[0]) && t != [] && !White(t[|t| - 1])
    ensures Trim(p + t + v) == c + t
  {
    Assoc(w, c, t);
    TrimSandwich(w, c + t, v);
  }
}
