/**
 * The Qwen2 pre-tokenizer (src/tokenizer/tokenizer.c): the hand-written next_piece against
 * the regular expression it stands for, with ordered alternation and greedy backtracking.
 */
module PreTokenizer {
  import opened Common

  /** The generated Unicode tables: closed codepoint ranges. */
  type Ranges = seq<(int, int)>

  datatype Unicode = Unicode(letter: Ranges, number: Ranges, space: Ranges)

  ghost predicate SortedRanges(r: Ranges) {
    && (forall i | 0 <= i < |r| :: r[i].0 <= r[i].1)
    && (forall i, j | 0 <= i < j < |r| :: r[i].1 < r[j].0)
  }

  predicate InRanges(r: Ranges, c: int) { exists i :: 0 <= i < |r| && r[i].0 <= c <= r[i].1 }

  /** The tables are sorted, and space, carriage return and line feed are white space. */
  ghost predicate Usable(u: Unicode) {
    && SortedRanges(u.letter) && SortedRanges(u.number) && SortedRanges(u.space)
    && InRanges(u.space, SPACE) && InRanges(u.space, CR) && InRanges(u.space, LF)
  }

  /** in_ranges: binary search. */
  method FindRange(r: Ranges, c: int) returns (found: bool)
    requires SortedRanges(r)
    ensures found == InRanges(r, c)
  {
    var lo, hi := 0, |r|;
    while lo < hi
      invariant 0 <= lo <= hi <= |r|
      invariant forall i | 0 <= i < lo :: r[i].1 < c
      invariant forall i | hi <= i < |r| :: c < r[i].0
    {
      var mid := (lo + hi) / 2;
      if c < r[mid].0 { hi := mid; }
      else if c > r[mid].1 { lo := mid + 1; }
      else { return true; }
    }
    return false;
  }

  /** The character classes of the expression. */
  datatype Class =
    | Is(c: int)            // one codepoint
    | Either(lower: int)    // an ASCII letter in either case: [sS]
    | Letter                // \p{L}
    | Number                // \p{N}
    | White                 // \s
    | Newline               // [\r\n]
    | Lead                  // [^\r\n\p{L}\p{N}]
    | Other                 // [^\s\p{L}\p{N}]

  predicate In(u: Unicode, k: Class, c: int) {
    match k
    case Is(x) => c == x
    case Either(x) => c == x || c == x - 32
    case Letter => InRanges(u.letter, c)
    case Number => InRanges(u.number, c)
    case White => InRanges(u.space, c)
    case Newline => c == CR || c == LF
    case Lead => c != CR && c != LF && !InRanges(u.letter, c) && !InRanges(u.number, c)
    case Other => !InRanges(u.space, c) && !InRanges(u.letter, c) && !InRanges(u.number, c)
  }

  datatype Re =
    | One(k: Class)         // k
    | Maybe(k: Class)       // k?, greedy
    | Many(k: Class)        // k*, greedy
    | Then(a: Re, b: Re)    // ab
    | Or(a: Re, b: Re)      // a|b, the first alternative preferred
    | NotBeforeText         // (?!\S)

  predicate Hits(u: Unicode, k: Class, s: seq<int>, i: nat) { i < |s| && In(u, k, s[i]) }

  function ManyEnds(u: Unicode, k: Class, s: seq<int>, i: nat): seq<nat>
    decreases |s| - i
  {
    if Hits(u, k, s, i) then ManyEnds(u, k, s, i + 1) + [i] else [i]
  }

  /**
   * Every end a match starting at `i` can have, in the order a backtracking matcher tries them.
   * The first element is the match.
   */
  function Ends(u: Unicode, re: Re, s: seq<int>, i: nat): seq<nat>
    decreases re, 0
  {
    match re
    case One(k) => if Hits(u, k, s, i) then [i + 1] else []
    case Maybe(k) => if Hits(u, k, s, i) then [i + 1, i] else [i]
    case Many(k) => ManyEnds(u, k, s, i)
    case Then(a, b) => Continue(u, Ends(u, a, s, i), b, s)
    case Or(a, b) => Ends(u, a, s, i) + Ends(u, b, s, i)
    case NotBeforeText => if i < |s| && !In(u, White, s[i]) then [] else [i]
  }

  /** Continue each of the given partial matches with `b`, in order. */
  function Continue(u: Unicode, starts: seq<nat>, b: Re, s: seq<int>): seq<nat>
    decreases b, 1, |starts|
  {
    if starts == [] then [] else Ends(u, b, s, starts[0]) + Continue(u, starts[1..], b, s)
  }

  /** The match of `re` at `i`: the first end tried. */
  function Match(u: Unicode, re: Re, s: seq<int>, i: nat): Option<nat> { First(Ends(u, re, s, i)) }

  function First(ends: seq<nat>): Option<nat> { if ends == [] then None else Some(ends[0]) }

  function Plus(k: Class): Re { Then(One(k), Many(k)) }

  const APOSTROPHE: int := 0x27

  function Contraction(c: int): Re { Then(One(Is(APOSTROPHE)), One(Either(c))) }

  function Contraction2(c: int, d: int): Re { Then(One(Is(APOSTROPHE)), Then(One(Either(c)), One(Either(d)))) }

  // '[vV][eE]|'[mM]|'[lL][lL]|'[dD]
  const ALT1_REST: Re :=
    Or(Contraction2(0x76, 0x65), Or(Contraction(0x6D), Or(Contraction2(0x6C, 0x6C), Contraction(0x64))))
  // '[sS]|'[tT]|'[rR][eE]|'[vV][eE]|'[mM]|'[lL][lL]|'[dD]
  const ALT1: Re :=
    Or(Contraction(0x73), Or(Contraction(0x74), Or(Contraction2(0x72, 0x65), ALT1_REST)))
  // [^\r\n\p{L}\p{N}]?\p{L}+
  const ALT2: Re := Then(Maybe(Lead), Plus(Letter))
  // \p{N}
  const ALT3: Re := One(Number)
  //  ?[^\s\p{L}\p{N}]+[\r\n]*
  const ALT4: Re := Then(Maybe(Is(SPACE)), Then(Plus(Other), Many(Newline)))
  // \s*[\r\n]+
  const ALT5: Re := Then(Many(White), Plus(Newline))
  // \s+(?!\S)
  const ALT6: Re := Then(Plus(White), NotBeforeText)
  // \s+
  const ALT7: Re := Plus(White)

  const QWEN2: Re := Or(ALT1, Or(ALT2, Or(ALT3, Or(ALT4, Or(ALT5, Or(ALT6, ALT7))))))

  /** The end of the run of `k` that starts at `i`. */
  function RunEnd(u: Unicode, k: Class, s: seq<int>, i: nat): (e: nat)
    requires i <= |s|
    ensures i <= e <= |s|
    ensures forall j | i <= j < e :: In(u, k, s[j])
    ensures !Hits(u, k, s, e)
    decreases |s| - i
  {
    if Hits(u, k, s, i) then RunEnd(u, k, s, i + 1) else i
  }

  lemma {:induction false} ManyMatch(u: Unicode, k: Class, s: seq<int>, i: nat)
    requires i <= |s|
    ensures First(ManyEnds(u, k, s, i)) == Some(RunEnd(u, k, s, i))
    decreases |s| - i
  {
    if Hits(u, k, s, i) {
      ManyMatch(u, k, s, i + 1);
    }
  }

  lemma {:induction false} ContinueConcat(u: Unicode, x: seq<nat>, y: seq<nat>, b: Re, s: seq<int>)
    ensures Continue(u, x + y, b, s) == Continue(u, x, b, s) + Continue(u, y, b, s)
  {
    if x == [] {
      assert x + y == y;
    } else {
      assert (x + y)[0] == x[0] && (x + y)[1..] == x[1..] + y;
      ContinueConcat(u, x[1..], y, b, s);
      Assoc(Ends(u, b, s, x[0]), Continue(u, x[1..], b, s), Continue(u, y, b, s));
    }
  }

  lemma ContinueOne(u: Unicode, e: nat, b: Re, s: seq<int>)
    ensures Continue(u, [e], b, s) == Ends(u, b, s, e)
  {
    var one := [e];
    assert one[1..] == [];
  }

  lemma ContinueTwo(u: Unicode, e: nat, f: nat, b: Re, s: seq<int>)
    ensures Continue(u, [e, f], b, s) == Ends(u, b, s, e) + Ends(u, b, s, f)
  {
    var two := [e, f];
    assert two[1..] == [f];
    ContinueOne(u, f, b, s);
  }

  lemma OneThen(u: Unicode, k: Class, b: Re, s: seq<int>, i: nat)
    ensures Ends(u, Then(One(k), b), s, i) == if Hits(u, k, s, i) then Ends(u, b, s, i + 1) else []
  {
    if Hits(u, k, s, i) {
      ContinueOne(u, i + 1, b, s);
    }
  }

  lemma PlusEnds(u: Unicode, k: Class, s: seq<int>, i: nat)
    ensures Ends(u, Plus(k), s, i) == if Hits(u, k, s, i) then ManyEnds(u, k, s, i + 1) else []
  {
    OneThen(u, k, Many(k), s, i);
  }

  lemma PlusMatch(u: Unicode, k: Class, s: seq<int>, i: nat)
    requires i <= |s|
    ensures Match(u, Plus(k), s, i) == if Hits(u, k, s, i) then Some(RunEnd(u, k, s, i)) else None
  {
    PlusEnds(u, k, s, i);
    if Hits(u, k, s, i) {
      ManyMatch(u, k, s, i + 1);
    }
  }

  lemma FirstConcat(x: seq<nat>, y: seq<nat>)
    ensures First(x + y) == if First(x).Some? then First(x) else First(y)
  {}

  lemma OrMatch(u: Unicode, a: Re, b: Re, s: seq<int>, i: nat)
    ensures Match(u, Or(a, b), s, i) == if Match(u, a, s, i).Some? then Match(u, a, s, i) else Match(u, b, s, i)
  {
    FirstConcat(Ends(u, a, s, i), Ends(u, b, s, i));
  }

  lemma ThenEnds(u: Unicode, a: Re, b: Re, s: seq<int>, i: nat)
    ensures Ends(u, Then(a, b), s, i) == Continue(u, Ends(u, a, s, i), b, s)
  {}

  /** Greedy optional prefix: taken if the rest then matches, otherwise skipped. */
  lemma MaybeThen(u: Unicode, k: Class, b: Re, s: seq<int>, i: nat)
    ensures Match(u, Then(Maybe(k), b), s, i) ==
            if Hits(u, k, s, i) && Match(u, b, s, i + 1).Some? then Match(u, b, s, i + 1) else Match(u, b, s, i)
  {
    ThenEnds(u, Maybe(k), b, s, i);
    if Hits(u, k, s, i) {
      assert Ends(u, Maybe(k), s, i) == [i + 1, i];
      ContinueTwo(u, i + 1, i, b, s);
      FirstConcat(Ends(u, b, s, i + 1), Ends(u, b, s, i));
    } else {
      assert Ends(u, Maybe(k), s, i) == [i];
      ContinueOne(u, i, b, s);
    }
  }

  /** When the rest always matches, the first part's match decides. */
  lemma ThenMatch(u: Unicode, a: Re, b: Re, s: seq<int>, i: nat)
    requires forall e: nat {:trigger Ends(u, b, s, e)} :: Ends(u, b, s, e) != []
    ensures Match(u, Then(a, b), s, i) ==
            if Match(u, a, s, i).Some? then Match(u, b, s, Match(u, a, s, i).value) else None
  {
    ThenEnds(u, a, b, s, i);
    var starts := Ends(u, a, s, i);
    if starts == [] {
      assert Continue(u, starts, b, s) == [];
    } else {
      assert Ends(u, b, s, starts[0]) != [];
      assert Continue(u, starts, b, s) == Ends(u, b, s, starts[0]) + Continue(u, starts[1..], b, s);
      FirstConcat(Ends(u, b, s, starts[0]), Continue(u, starts[1..], b, s));
    }
  }

  /** ASCII lower-casing, as the code compares the characters after an apostrophe. */
  function Lower(c: int): int { if 0x41 <= c <= 0x5A then c + 32 else c }

  predicate Apostrophe1(s: seq<int>, i: nat, c: int) {
    i + 1 < |s| && s[i] == APOSTROPHE && Lower(s[i + 1]) == c
  }

  predicate Apostrophe2(s: seq<int>, i: nat, c: int, d: int) {
    i + 2 < |s| && Apostrophe1(s, i, c) && Lower(s[i + 2]) == d
  }

  lemma ContractionMatch(u: Unicode, c: int, s: seq<int>, i: nat)
    requires 0x61 <= c <= 0x7A
    ensures Match(u, Contraction(c), s, i) == if Apostrophe1(s, i, c) then Some(i + 2) else None
  {
    OneThen(u, Is(APOSTROPHE), One(Either(c)), s, i);
  }

  lemma Contraction2Match(u: Unicode, c: int, d: int, s: seq<int>, i: nat)
    requires 0x61 <= c <= 0x7A && 0x61 <= d <= 0x7A
    ensures Match(u, Contraction2(c, d), s, i) == if Apostrophe2(s, i, c, d) then Some(i + 3) else None
  {
    OneThen(u, Is(APOSTROPHE), Then(One(Either(c)), One(Either(d))), s, i);
    OneThen(u, Either(c), One(Either(d)), s, i + 1);
  }

  /** What the code tests for ALT1. */
  function ContractionEnd(s: seq<int>, i: nat): Option<nat> {
    if Apostrophe2(s, i, 0x72, 0x65) || Apostrophe2(s, i, 0x76, 0x65) || Apostrophe2(s, i, 0x6C, 0x6C) then Some(i + 3)
    else if Apostrophe1(s, i, 0x73) || Apostrophe1(s, i, 0x74) || Apostrophe1(s, i, 0x6D) || Apostrophe1(s, i, 0x64)
    then Some(i + 2)
    else None
  }

  lemma Alt1RestMatch(u: Unicode, s: seq<int>, i: nat)
    ensures Match(u, ALT1_REST, s, i) ==
            if Apostrophe2(s, i, 0x76, 0x65) || Apostrophe2(s, i, 0x6C, 0x6C) then Some(i + 3)
            else if Apostrophe1(s, i, 0x6D) || Apostrophe1(s, i, 0x64) then Some(i + 2) else None
  {
    OrMatch(u, Contraction2(0x76, 0x65), Or(Contraction(0x6D), Or(Contraction2(0x6C, 0x6C), Contraction(0x64))), s, i);
    OrMatch(u, Contraction(0x6D), Or(Contraction2(0x6C, 0x6C), Contraction(0x64)), s, i);
    OrMatch(u, Contraction2(0x6C, 0x6C), Contraction(0x64), s, i);
    Contraction2Match(u, 0x76, 0x65, s, i);
    ContractionMatch(u, 0x6D, s, i);
    Contraction2Match(u, 0x6C, 0x6C, s, i);
    ContractionMatch(u, 0x64, s, i);
  }

  /** No contraction shadows another: the characters after the apostrophe decide. */
  lemma Alt1Match(u: Unicode, s: seq<int>, i: nat)
    ensures Match(u, ALT1, s, i) == ContractionEnd(s, i)
  {
    OrMatch(u, Contraction(0x73), Or(Contraction(0x74), Or(Contraction2(0x72, 0x65), ALT1_REST)), s, i);
    OrMatch(u, Contraction(0x74), Or(Contraction2(0x72, 0x65), ALT1_REST), s, i);
    OrMatch(u, Contraction2(0x72, 0x65), ALT1_REST, s, i);
    ContractionMatch(u, 0x73, s, i);
    ContractionMatch(u, 0x74, s, i);
    Contraction2Match(u, 0x72, 0x65, s, i);
    Alt1RestMatch(u, s, i);
  }

  /** What the code tests for ALT2. */
  function LetterEnd(u: Unicode, s: seq<int>, i: nat): Option<nat>
    requires i < |s|
  {
    if Hits(u, Lead, s, i) && Hits(u, Letter, s, i + 1) then Some(RunEnd(u, Letter, s, i + 1))
    else if Hits(u, Letter, s, i) then Some(RunEnd(u, Letter, s, i)) else None
  }

  lemma Alt2Match(u: Unicode, s: seq<int>, i: nat)
    requires i < |s|
    ensures Match(u, ALT2, s, i) == LetterEnd(u, s, i)
  {
    MaybeThen(u, Lead, Plus(Letter), s, i);
    PlusMatch(u, Letter, s, i);
    PlusMatch(u, Letter, s, i + 1);
  }

  lemma OtherThenNewlines(u: Unicode, s: seq<int>, i: nat)
    requires i <= |s|
    ensures Match(u, Then(Plus(Other), Many(Newline)), s, i) ==
            if Hits(u, Other, s, i) then Some(RunEnd(u, Newline, s, RunEnd(u, Other, s, i))) else None
  {
    forall e: nat ensures Ends(u, Many(Newline), s, e) != [] {}
    ThenMatch(u, Plus(Other), Many(Newline), s, i);
    PlusMatch(u, Other, s, i);
    ManyMatch(u, Newline, s, RunEnd(u, Other, s, i));
  }

  /** What the code tests for ALT4. */
  function OtherEnd(u: Unicode, s: seq<int>, i: nat): Option<nat>
    requires i < |s|
  {
    if Hits(u, Is(SPACE), s, i) && Hits(u, Other, s, i + 1) then Some(RunEnd(u, Newline, s, RunEnd(u, Other, s, i + 1)))
    else if Hits(u, Other, s, i) then Some(RunEnd(u, Newline, s, RunEnd(u, Other, s, i))) else None
  }

  lemma Alt4Match(u: Unicode, s: seq<int>, i: nat)
    requires i < |s|
    ensures Match(u, ALT4, s, i) == OtherEnd(u, s, i)
  {
    MaybeThen(u, Is(SPACE), Then(Plus(Other), Many(Newline)), s, i);
    OtherThenNewlines(u, s, i);
    OtherThenNewlines(u, s, i + 1);
  }

  /** The last newline in s[i..e), or None. */
  function LastNewline(s: seq<int>, i: nat, e: nat): (last: Option<nat>)
    requires i <= e <= |s|
    ensures last.Some? ==> i <= last.value < e && (s[last.value] == CR || s[last.value] == LF)
    ensures last.Some? ==> forall j | last.value < j < e :: s[j] != CR && s[j] != LF
    ensures last.None? ==> forall j | i <= j < e :: s[j] != CR && s[j] != LF
  {
    if i == e then None
    else if s[e - 1] == CR || s[e - 1] == LF then Some(e - 1)
    else LastNewline(s, i, e - 1)
  }

  /** One character of the run: what follows a longer run comes first. */
  lemma BacktrackStep(u: Unicode, b: Re, s: seq<int>, i: nat)
    requires Hits(u, White, s, i)
    ensures var longer := First(Continue(u, ManyEnds(u, White, s, i + 1), b, s));
            First(Continue(u, ManyEnds(u, White, s, i), b, s)) == if longer.Some? then longer else Match(u, b, s, i)
  {
    ContinueConcat(u, ManyEnds(u, White, s, i + 1), [i], b, s);
    ContinueOne(u, i, b, s);
    FirstConcat(Continue(u, ManyEnds(u, White, s, i + 1), b, s), Ends(u, b, s, i));
  }

  /** The character after the run is no newline, because newlines are white space. */
  lemma NextIsText(u: Unicode, s: seq<int>, i: nat, e: nat)
    requires Usable(u) && i <= e <= |s| && e == RunEnd(u, White, s, i)
    ensures !Hits(u, Newline, s, e)
  {}

  /** With no newline later in the run, newlines match here for one character or not at all. */
  lemma NewlineHere(u: Unicode, s: seq<int>, i: nat, e: nat)
    requires i < e <= |s| && !Hits(u, Newline, s, e) && LastNewline(s, i + 1, e).None?
    ensures Match(u, Plus(Newline), s, i) == if s[i] == CR || s[i] == LF then Some(i + 1) else None
  {
    PlusMatch(u, Newline, s, i);
    assert !Hits(u, Newline, s, i + 1);
  }

  /** Backtracking over \s* stops at the last newline of the run. */
  lemma {:induction false} NewlineBacktrack(u: Unicode, s: seq<int>, i: nat, e: nat)
    requires Usable(u) && i <= e <= |s| && e == RunEnd(u, White, s, i)
    ensures var last := LastNewline(s, i, e);
            First(Continue(u, ManyEnds(u, White, s, i), Plus(Newline), s)) ==
              if last.Some? then Some(last.value + 1) else None
    decreases e - i
  {
    NextIsText(u, s, i, e);
    if i == e {
      ContinueOne(u, i, Plus(Newline), s);
      PlusMatch(u, Newline, s, i);
    } else {
      NewlineBacktrack(u, s, i + 1, e);
      BacktrackStep(u, Plus(Newline), s, i);
      LastNewlineStep(s, i, e);
      if LastNewline(s, i + 1, e).None? { NewlineHere(u, s, i, e); }
    }
  }

  lemma {:induction false} LastNewlineStep(s: seq<int>, i: nat, e: nat)
    requires i < e <= |s|
    ensures LastNewline(s, i, e) ==
            if LastNewline(s, i + 1, e).Some? then LastNewline(s, i + 1, e)
            else if s[i] == CR || s[i] == LF then Some(i) else None
  {}

  lemma Alt5Match(u: Unicode, s: seq<int>, i: nat)
    requires Usable(u) && i < |s|
    ensures var last := LastNewline(s, i, RunEnd(u, White, s, i));
            Match(u, ALT5, s, i) == if last.Some? then Some(last.value + 1) else None
  {
    NewlineBacktrack(u, s, i, RunEnd(u, White, s, i));
  }

  /** (?!\S) after a greedy run: one step back unless the run reaches the end of the text. */
  lemma {:induction false} AheadBacktrack(u: Unicode, s: seq<int>, i: nat, e: nat)
    requires i <= e <= |s| && e == RunEnd(u, White, s, i)
    ensures First(Continue(u, ManyEnds(u, White, s, i), NotBeforeText, s)) ==
            if e == |s| then Some(e) else if e > i then Some(e - 1) else None
    decreases e - i
  {
    if i == e {
      ContinueOne(u, i, NotBeforeText, s);
    } else {
      AheadBacktrack(u, s, i + 1, e);
      BacktrackStep(u, NotBeforeText, s, i);
    }
  }

  lemma Alt6Match(u: Unicode, s: seq<int>, i: nat)
    requires Hits(u, White, s, i)
    ensures var e := RunEnd(u, White, s, i);
            Match(u, ALT6, s, i) == if e == |s| then Some(e) else if e - i >= 2 then Some(e - 1) else None
  {
    PlusEnds(u, White, s, i);
    AheadBacktrack(u, s, i + 1, RunEnd(u, White, s, i));
  }

  lemma Alt3Match(u: Unicode, s: seq<int>, i: nat)
    ensures Match(u, ALT3, s, i) == if Hits(u, Number, s, i) then Some(i + 1) else None
  {}

  /** The white-space alternatives together, once the first four have failed. */
  function SpaceEnd(u: Unicode, s: seq<int>, i: nat): nat
    requires i < |s|
  {
    var e := RunEnd(u, White, s, i);
    var last := LastNewline(s, i, e);
    if last.Some? then last.value + 1 else if e == |s| || e - i < 2 then e else e - 1
  }

  lemma SpaceMatch(u: Unicode, s: seq<int>, i: nat)
    requires Usable(u) && Hits(u, White, s, i)
    ensures Match(u, Or(ALT5, Or(ALT6, ALT7)), s, i) == Some(SpaceEnd(u, s, i))
  {
    OrMatch(u, ALT5, Or(ALT6, ALT7), s, i);
    OrMatch(u, ALT6, ALT7, s, i);
    Alt5Match(u, s, i);
    Alt6Match(u, s, i);
    PlusMatch(u, White, s, i);
  }

  /** The choice between the alternatives. */
  lemma QwenMatch(u: Unicode, s: seq<int>, i: nat)
    requires Usable(u) && i < |s|
    ensures Match(u, QWEN2, s, i) ==
      if ContractionEnd(s, i).Some? then ContractionEnd(s, i)
      else if Match(u, ALT2, s, i).Some? then Match(u, ALT2, s, i)
      else if Hits(u, Number, s, i) then Some(i + 1)
      else if Match(u, ALT4, s, i).Some? then Match(u, ALT4, s, i)
      else Match(u, Or(ALT5, Or(ALT6, ALT7)), s, i)
  {
    var e := Or(ALT5, Or(ALT6, ALT7));
    OrMatch(u, ALT1, Or(ALT2, Or(ALT3, Or(ALT4, e))), s, i);
    OrMatch(u, ALT2, Or(ALT3, Or(ALT4, e)), s, i);
    OrMatch(u, ALT3, Or(ALT4, e), s, i);
    OrMatch(u, ALT4, e, s, i);
    Alt1Match(u, s, i);
    Alt3Match(u, s, i);
  }

  lemma RunProgress(u: Unicode, k: Class, s: seq<int>, i: nat)
    requires i <= |s|
    ensures Hits(u, k, s, i) ==> i < RunEnd(u, k, s, i)
  {}

  /** What the code tests, alternative by alternative. */
  function PieceEnd(u: Unicode, s: seq<int>, i: nat): nat
    requires i < |s|
  {
    if ContractionEnd(s, i).Some? then ContractionEnd(s, i).value
    else if LetterEnd(u, s, i).Some? then LetterEnd(u, s, i).value
    else if Hits(u, Number, s, i) then i + 1
    else if OtherEnd(u, s, i).Some? then OtherEnd(u, s, i).value
    else SpaceEnd(u, s, i)
  }

  /** A character that starts no other alternative is white space. */
  lemma LeftIsSpace(u: Unicode, s: seq<int>, i: nat)
    requires i < |s| && LetterEnd(u, s, i).None? && !Hits(u, Number, s, i) && OtherEnd(u, s, i).None?
    ensures Hits(u, White, s, i)
  {}

  /** The tests find exactly the first match of the expression. */
  lemma PieceIsMatch(u: Unicode, s: seq<int>, i: nat)
    requires Usable(u) && i < |s|
    ensures Match(u, QWEN2, s, i) == Some(PieceEnd(u, s, i))
  {
    QwenMatch(u, s, i);
    Alt2Match(u, s, i);
    Alt4Match(u, s, i);
    if LetterEnd(u, s, i).None? && !Hits(u, Number, s, i) && OtherEnd(u, s, i).None? {
      LeftIsSpace(u, s, i);
      SpaceMatch(u, s, i);
    }
  }

  lemma LetterProgress(u: Unicode, s: seq<int>, i: nat)
    requires i < |s| && LetterEnd(u, s, i).Some?
    ensures i < LetterEnd(u, s, i).value <= |s|
  {
    RunProgress(u, Letter, s, i);
  }

  lemma OtherProgress(u: Unicode, s: seq<int>, i: nat)
    requires i < |s| && OtherEnd(u, s, i).Some?
    ensures i < OtherEnd(u, s, i).value <= |s|
  {
    RunProgress(u, Other, s, i);
  }

  lemma SpaceProgress(u: Unicode, s: seq<int>, i: nat)
    requires Hits(u, White, s, i)
    ensures i < SpaceEnd(u, s, i) <= |s|
  {
    RunProgress(u, White, s, i);
  }

  lemma PieceProgress(u: Unicode, s: seq<int>, i: nat)
    requires i < |s|
    ensures i < PieceEnd(u, s, i) <= |s|
  {
    if LetterEnd(u, s, i).Some? { LetterProgress(u, s, i); }
    if OtherEnd(u, s, i).Some? { OtherProgress(u, s, i); }
    if LetterEnd(u, s, i).None? && !Hits(u, Number, s, i) && OtherEnd(u, s, i).None? {
      LeftIsSpace(u, s, i);
      SpaceProgress(u, s, i);
    }
  }

  /** Every text has a match, and no match is empty: the pieces make progress. */
  lemma QwenProgress(u: Unicode, s: seq<int>, i: nat)
    requires Usable(u) && i < |s|
    ensures Match(u, QWEN2, s, i).Some? && i < Match(u, QWEN2, s, i).value <= |s|
  {
    PieceIsMatch(u, s, i);
    PieceProgress(u, s, i);
  }

  method Test(u: Unicode, k: Class, c: int) returns (b: bool)
    requires Usable(u)
    ensures b == In(u, k, c)
  {
    match k
    case Is(x) => b := c == x;
    case Either(x) => b := c == x || c == x - 32;
    case Letter => b := FindRange(u.letter, c);
    case Number => b := FindRange(u.number, c);
    case White => b := FindRange(u.space, c);
    case Newline => b := c == CR || c == LF;
    case Lead =>
      var l := FindRange(u.letter, c);
      var n := FindRange(u.number, c);
      b := c != CR && c != LF && !l && !n;
    case Other =>
      var w := FindRange(u.space, c);
      var l := FindRange(u.letter, c);
      var n := FindRange(u.number, c);
      b := !w && !l && !n;
  }

  method TestAt(u: Unicode, k: Class, s: seq<int>, i: nat) returns (b: bool)
    requires Usable(u)
    ensures b == Hits(u, k, s, i)
  {
    if i < |s| { b := Test(u, k, s[i]); } else { b := false; }
  }

  /** while (k < n && class(cp[k])) k++ */
  method Skip(u: Unicode, k: Class, s: seq<int>, i: nat) returns (e: nat)
    requires Usable(u) && i <= |s|
    ensures e == RunEnd(u, k, s, i)
  {
    e := i;
    while e < |s|
      invariant i <= e <= |s| && RunEnd(u, k, s, e) == RunEnd(u, k, s, i)
    {
      var b := Test(u, k, s[e]);
      if !b { return; }
      e := e + 1;
    }
  }

  /** ALT5 to ALT7: one scan of the white-space run. */
  method SpacePiece(u: Unicode, s: seq<int>, i: nat) returns (e: nat)
    requires Usable(u) && i < |s|
    ensures e == SpaceEnd(u, s, i)
  {
    var end := Skip(u, White, s, i);
    var last := -1;
    for k := i to end
      invariant last == -1 <==> LastNewline(s, i, k).None?
      invariant last != -1 ==> LastNewline(s, i, k) == Some(last)
    {
      if s[k] == CR || s[k] == LF { last := k; }
    }
    if last != -1 { return last + 1; }
    if end == |s| { return end; }
    if end - i >= 2 { return end - 1; }
    return end;
  }

  /** ALT1. */
  method ContractionPiece(s: seq<int>, i: nat) returns (e: Option<nat>)
    requires i < |s|
    ensures e == ContractionEnd(s, i)
  {
    if s[i] == APOSTROPHE && i + 1 < |s| {
      var c1 := Lower(s[i + 1]);
      if i + 2 < |s| {
        var c2 := Lower(s[i + 2]);
        if ((c1 == 0x72 || c1 == 0x76) && c2 == 0x65) || (c1 == 0x6C && c2 == 0x6C) { return Some(i + 3); }
      }
      if c1 == 0x73 || c1 == 0x74 || c1 == 0x6D || c1 == 0x64 { return Some(i + 2); }
    }
    return None;
  }

  /** ALT2. */
  method LetterPiece(u: Unicode, s: seq<int>, i: nat) returns (e: Option<nat>)
    requires Usable(u) && i < |s|
    ensures e == LetterEnd(u, s, i)
  {
    var k := i;
    var lead := Test(u, Lead, s[i]);
    if lead {
      var next := TestAt(u, Letter, s, k + 1);
      if next { k := k + 1; }
    }
    var letter := TestAt(u, Letter, s, k);
    if !letter { return None; }
    k := Skip(u, Letter, s, k);
    return Some(k);
  }

  /** ALT4. */
  method OtherPiece(u: Unicode, s: seq<int>, i: nat) returns (e: Option<nat>)
    requires Usable(u) && i < |s|
    ensures e == OtherEnd(u, s, i)
  {
    var k := i;
    if s[k] == SPACE {
      var next := TestAt(u, Other, s, k + 1);
      if !next { return None; }
      k := k + 1;
    }
    var other := TestAt(u, Other, s, k);
    if !other { return None; }
    k := Skip(u, Other, s, k);
    k := Skip(u, Newline, s, k);
    return Some(k);
  }

  // ---- what a piece is, in codepoints and ranges ----

  predicate Within(r: Ranges, c: int) { exists x :: 0 <= x < |r| && r[x].0 <= c && c <= r[x].1 }

  predicate EndsLine(c: int) { c == 0x0D || c == 0x0A }

  predicate Word(u: Unicode, s: seq<int>, i: nat) { i < |s| && Within(u.letter, s[i]) }

  predicate Digit(u: Unicode, s: seq<int>, i: nat) { i < |s| && Within(u.number, s[i]) }

  predicate Blank(u: Unicode, s: seq<int>, i: nat) { i < |s| && Within(u.space, s[i]) }

  predicate Sign(u: Unicode, s: seq<int>, i: nat) {
    i < |s| && !Within(u.space, s[i]) && !Within(u.letter, s[i]) && !Within(u.number, s[i])
  }

  /** 's, 't, 'm or 'd in either case. */
  predicate ShortSuffix(s: seq<int>, i: nat) {
    i + 1 < |s| && s[i] == 0x27 && s[i + 1] in [0x73, 0x53, 0x74, 0x54, 0x6D, 0x4D, 0x64, 0x44]
  }

  /** 're, 've or 'll in either case. */
  predicate LongSuffix(s: seq<int>, i: nat) {
    && i + 2 < |s| && s[i] == 0x27
    && ((s[i + 1] in [0x72, 0x52, 0x76, 0x56] && s[i + 2] in [0x65, 0x45])
        || (s[i + 1] in [0x6C, 0x4C] && s[i + 2] in [0x6C, 0x4C]))
  }

  /** One character that may stand before a word and is neither a line end nor a letter nor a number. */
  predicate LeadsWord(u: Unicode, s: seq<int>, i: nat) {
    i < |s| && !EndsLine(s[i]) && !Within(u.letter, s[i]) && !Within(u.number, s[i]) && Word(u, s, i + 1)
  }

  /** All letters from k to e, and no letter after them. */
  predicate IsWord(u: Unicode, s: seq<int>, k: nat, e: nat) {
    k < e <= |s| && (forall j | k <= j < e :: Word(u, s, j)) && !Word(u, s, e)
  }

  /** All signs from k, then all line ends, up to e. */
  predicate AreSigns(u: Unicode, s: seq<int>, k: nat, e: nat) {
    exists m :: k < m <= e <= |s| && SignsUpTo(u, s, k, m) && LineEndsUpTo(s, m, e)
  }

  predicate SignsUpTo(u: Unicode, s: seq<int>, k: nat, m: nat) {
    m <= |s| && (forall j | k <= j < m :: Sign(u, s, j)) && !Sign(u, s, m)
  }

  predicate LineEndsUpTo(s: seq<int>, m: nat, e: nat) {
    e <= |s| && (forall j | m <= j < e :: EndsLine(s[j])) && (e < |s| ==> !EndsLine(s[e]))
  }

  /** The white run from i to m. */
  predicate IsBlankRun(u: Unicode, s: seq<int>, i: nat, m: nat) {
    i < m <= |s| && (forall j | i <= j < m :: Blank(u, s, j)) && !Blank(u, s, m)
  }

  /**
   * Of a white run: all up to its last line end; without line end all if it ends the text or is one
   * character, else all but one.
   */
  predicate IsBlankPiece(u: Unicode, s: seq<int>, i: nat, e: nat) {
    exists m :: i < e <= m <= |s| && IsBlankRun(u, s, i, m) && TakesBlanks(s, i, m, e)
  }

  predicate TakesBlanks(s: seq<int>, i: nat, m: nat, e: nat)
    requires i < e <= m <= |s|
  {
    && (forall j | e <= j < m :: !EndsLine(s[j]))
    && (EndsLine(s[e - 1])
        || ((forall j | i <= j < m :: !EndsLine(s[j])) && e == if m == |s| || m == i + 1 then m else m - 1))
  }

  predicate NoSuffix(s: seq<int>, i: nat) { !LongSuffix(s, i) && !ShortSuffix(s, i) }

  /** The piece that starts at i ends at e. */
  predicate IsPiece(u: Unicode, s: seq<int>, i: nat, e: nat) {
    if LongSuffix(s, i) then e == i + 3
    else if ShortSuffix(s, i) then e == i + 2
    else if LeadsWord(u, s, i) then IsWord(u, s, i + 1, e)
    else if Word(u, s, i) then IsWord(u, s, i, e)
    else if Digit(u, s, i) then e == i + 1
    else if i < |s| && s[i] == 0x20 && Sign(u, s, i + 1) then AreSigns(u, s, i + 1, e)
    else if Sign(u, s, i) then AreSigns(u, s, i, e)
    else IsBlankPiece(u, s, i, e)
  }

  lemma WithinIs(r: Ranges, c: int)
    ensures Within(r, c) <==> InRanges(r, c)
  {}

  lemma SuffixesAre(s: seq<int>, i: nat)
    ensures ContractionEnd(s, i)
            == if LongSuffix(s, i) then Some(i + 3) else if ShortSuffix(s, i) then Some(i + 2) else None
  {}

  lemma WordIs(u: Unicode, s: seq<int>, k: nat)
    requires Hits(u, Letter, s, k)
    ensures IsWord(u, s, k, RunEnd(u, Letter, s, k))
  {
    RunProgress(u, Letter, s, k);
    assert forall c :: Within(u.letter, c) <==> InRanges(u.letter, c);
  }

  lemma SignsAre(u: Unicode, s: seq<int>, k: nat)
    requires Hits(u, Other, s, k)
    ensures AreSigns(u, s, k, RunEnd(u, Newline, s, RunEnd(u, Other, s, k)))
  {
    RunProgress(u, Other, s, k);
    var m := RunEnd(u, Other, s, k);
    forall j: nat ensures Sign(u, s, j) <==> Hits(u, Other, s, j) { SignIs(u, s, j); }
    assert SignsUpTo(u, s, k, m) && LineEndsUpTo(s, m, RunEnd(u, Newline, s, m));
  }

  lemma SignIs(u: Unicode, s: seq<int>, j: nat)
    ensures Sign(u, s, j) <==> Hits(u, Other, s, j)
    ensures Blank(u, s, j) <==> Hits(u, White, s, j)
    ensures Word(u, s, j) <==> Hits(u, Letter, s, j)
    ensures Digit(u, s, j) <==> Hits(u, Number, s, j)
    ensures LeadsWord(u, s, j) <==> Hits(u, Lead, s, j) && Hits(u, Letter, s, j + 1)
  {}

  lemma BlanksAre(u: Unicode, s: seq<int>, i: nat)
    requires Hits(u, White, s, i)
    ensures IsBlankPiece(u, s, i, SpaceEnd(u, s, i))
  {
    SpaceProgress(u, s, i);
    RunProgress(u, White, s, i);
    var m := RunEnd(u, White, s, i);
    forall j: nat ensures Blank(u, s, j) <==> Hits(u, White, s, j) { SignIs(u, s, j); }
    assert IsBlankRun(u, s, i, m) && TakesBlanks(s, i, m, SpaceEnd(u, s, i));
  }

  /** The first match of the expression is such a piece. */
  lemma MatchIsPiece(u: Unicode, s: seq<int>, i: nat, e: nat)
    requires Usable(u) && i < |s| && Match(u, QWEN2, s, i) == Some(e)
    ensures IsPiece(u, s, i, e)
  {
    PieceIsMatch(u, s, i);
    SuffixesAre(s, i);
    SignIs(u, s, i);
    SignIs(u, s, i + 1);
    if NoSuffix(s, i) {
      if LetterEnd(u, s, i).Some? {
        WordIs(u, s, if LeadsWord(u, s, i) then i + 1 else i);
      } else if !Digit(u, s, i) {
        if OtherEnd(u, s, i).Some? {
          SignsAre(u, s, if s[i] == SPACE && Sign(u, s, i + 1) then i + 1 else i);
        } else {
          LeftIsSpace(u, s, i);
          BlanksAre(u, s, i);
        }
      }
    }
  }

  /** A text and a start have one such piece. */
  lemma OnePiece(u: Unicode, s: seq<int>, i: nat, e: nat, e': nat)
    requires i < |s| && IsPiece(u, s, i, e) && IsPiece(u, s, i, e')
    ensures e == e'
  {
    if NoSuffix(s, i) && !Word(u, s, i) && !LeadsWord(u, s, i) && !Digit(u, s, i) {
      if s[i] == 0x20 && Sign(u, s, i + 1) {
        OneSigns(u, s, i + 1, e, e');
      } else if Sign(u, s, i) {
        OneSigns(u, s, i, e, e');
      } else {
        OneBlanks(u, s, i, e, e');
      }
    }
  }

  lemma SignsStop(u: Unicode, s: seq<int>, k: nat, m: nat, stop: nat)
    requires SignsUpTo(u, s, k, m) && k <= stop && !Sign(u, s, stop)
    ensures m <= stop
  {}

  lemma LineEndsStop(s: seq<int>, m: nat, e: nat, e': nat)
    requires LineEndsUpTo(s, m, e) && LineEndsUpTo(s, m, e') && m <= e && m <= e'
    ensures e == e'
  {}

  lemma BlanksStop(u: Unicode, s: seq<int>, i: nat, m: nat, stop: nat)
    requires IsBlankRun(u, s, i, m) && i <= stop && !Blank(u, s, stop)
    ensures m <= stop
  {}

  lemma OneSigns(u: Unicode, s: seq<int>, k: nat, e: nat, e': nat)
    requires AreSigns(u, s, k, e) && AreSigns(u, s, k, e')
    ensures e == e'
  {
    var m :| k < m <= e <= |s| && SignsUpTo(u, s, k, m) && LineEndsUpTo(s, m, e);
    var m' :| k < m' <= e' <= |s| && SignsUpTo(u, s, k, m') && LineEndsUpTo(s, m', e');
    SignsStop(u, s, k, m, m');
    SignsStop(u, s, k, m', m);
    LineEndsStop(s, m, e, e');
  }

  lemma OneBlanks(u: Unicode, s: seq<int>, i: nat, e: nat, e': nat)
    requires IsBlankPiece(u, s, i, e) && IsBlankPiece(u, s, i, e')
    ensures e == e'
  {
    var m :| i < e <= m <= |s| && IsBlankRun(u, s, i, m) && TakesBlanks(s, i, m, e);
    var m' :| i < e' <= m' <= |s| && IsBlankRun(u, s, i, m') && TakesBlanks(s, i, m', e');
    BlanksStop(u, s, i, m, m');
    BlanksStop(u, s, i, m', m);
    OneTake(s, i, m, e, e');
  }

  lemma OneTake(s: seq<int>, i: nat, m: nat, e: nat, e': nat)
    requires i < e <= m <= |s| && i < e' <= m && TakesBlanks(s, i, m, e) && TakesBlanks(s, i, m, e')
    ensures e == e'
  {}

  // ---- what a piece looks like ----

  /** No codepoint is in two tables. */
  ghost predicate Disjoint(u: Unicode) {
    forall c: int ::
      && !(Within(u.letter, c) && Within(u.number, c))
      && !(Within(u.letter, c) && Within(u.space, c))
      && !(Within(u.number, c) && Within(u.space, c))
  }

  lemma LineEndsAreBlank(u: Unicode)
    requires Usable(u)
    ensures Within(u.space, 0x0D) && Within(u.space, 0x0A) && Within(u.space, 0x20)
  {
    WithinIs(u.space, 0x0D);
    WithinIs(u.space, 0x0A);
    WithinIs(u.space, 0x20);
  }

  /** Inside a sign piece there are signs, then line ends. */
  lemma SignsHold(u: Unicode, s: seq<int>, k: nat, e: nat, j: nat)
    requires AreSigns(u, s, k, e) && k <= j < e
    ensures e <= |s| && (Sign(u, s, j) || EndsLine(s[j]))
  {
    var m :| k < m <= e <= |s| && SignsUpTo(u, s, k, m) && LineEndsUpTo(s, m, e);
    assert j < m ==> Sign(u, s, j);
  }

  lemma BlanksHold(u: Unicode, s: seq<int>, i: nat, e: nat, j: nat)
    requires IsBlankPiece(u, s, i, e) && i <= j < e
    ensures Blank(u, s, j)
  {
    var m :| i < e <= m <= |s| && IsBlankRun(u, s, i, m) && TakesBlanks(s, i, m, e);
  }

  /** What stands at each place of a piece that is no apostrophe suffix. */
  lemma PieceHolds(u: Unicode, s: seq<int>, i: nat, e: nat, j: nat)
    requires i < |s| && IsPiece(u, s, i, e) && NoSuffix(s, i) && i <= j < e
    ensures if LeadsWord(u, s, i) then IsWord(u, s, i + 1, e) && (j == i || Word(u, s, j))
            else if Word(u, s, i) then IsWord(u, s, i, e) && Word(u, s, j)
            else if Digit(u, s, i) then e == i + 1
            else if s[i] == 0x20 && Sign(u, s, i + 1) then
              AreSigns(u, s, i + 1, e) && e <= |s| && (j == i || Sign(u, s, j) || EndsLine(s[j]))
            else if Sign(u, s, i) then AreSigns(u, s, i, e) && e <= |s| && (Sign(u, s, j) || EndsLine(s[j]))
            else Blank(u, s, j)
  {
    if !LeadsWord(u, s, i) && !Word(u, s, i) && !Digit(u, s, i) {
      if s[i] == 0x20 && Sign(u, s, i + 1) {
        if j > i { SignsHold(u, s, i + 1, e, j); } else { SignsHold(u, s, i + 1, e, i + 1); }
      } else if Sign(u, s, i) {
        SignsHold(u, s, i, e, j);
      } else {
        BlanksHold(u, s, i, e, j);
      }
    }
  }

  /** A piece that starts with a line end is white space that ends with the last line end of its white run. */
  lemma LineEndPiece(u: Unicode, s: seq<int>, i: nat, e: nat) returns (m: nat)
    requires Usable(u) && Disjoint(u) && i < |s| && EndsLine(s[i]) && IsPiece(u, s, i, e)
    ensures i < e <= m <= |s| && IsBlankRun(u, s, i, m)
    ensures EndsLine(s[e - 1]) && forall j | e <= j < m :: !EndsLine(s[j])
  {
    LineEndsAreBlank(u);
    m :| i < e <= m <= |s| && IsBlankRun(u, s, i, m) && TakesBlanks(s, i, m, e);
  }

  /** A piece with a letter in it is an apostrophe suffix, or a word after at most one lead. */
  lemma LetterPieceShape(u: Unicode, s: seq<int>, i: nat, e: nat, j: nat)
    requires Usable(u) && Disjoint(u) && i < |s| && IsPiece(u, s, i, e) && i <= j < e && Word(u, s, j)
    ensures !NoSuffix(s, i) || IsWord(u, s, i, e) || (LeadsWord(u, s, i) && IsWord(u, s, i + 1, e))
  {
    if NoSuffix(s, i) {
      LineEndsAreBlank(u);
      PieceHolds(u, s, i, e, j);
    }
  }

  /** A piece with a number in it that is no apostrophe suffix is that number alone. */
  lemma NumberPieceShape(u: Unicode, s: seq<int>, i: nat, e: nat, j: nat)
    requires Usable(u) && Disjoint(u) && i < |s| && IsPiece(u, s, i, e)
    requires i <= j < e && Digit(u, s, j) && NoSuffix(s, i)
    ensures j == i && e == i + 1
  {
    LineEndsAreBlank(u);
    PieceHolds(u, s, i, e, j);
  }

  /** A piece with a sign in it that is no suffix or word is signs then line ends, after at most one space. */
  lemma SignPieceShape(u: Unicode, s: seq<int>, i: nat, e: nat, j: nat)
    requires Usable(u) && Disjoint(u) && i < |s| && IsPiece(u, s, i, e) && NoSuffix(s, i) && !LeadsWord(u, s, i)
    requires i <= j < e && Sign(u, s, j)
    ensures AreSigns(u, s, i, e) || (s[i] == 0x20 && AreSigns(u, s, i + 1, e))
  {
    PieceHolds(u, s, i, e, j);
  }

  /**
   * next_piece: for every text and start it returns exactly the first match of the regular
   * expression, which always exists and is never empty.
   */
  method NextPiece(u: Unicode, s: seq<int>, i: nat) returns (e: nat)
    requires Usable(u) && i < |s|
    ensures Match(u, QWEN2, s, i) == Some(e)
    ensures i < e <= |s| && IsPiece(u, s, i, e)
  {
    e := Alternatives(u, s, i);
    PieceIsMatch(u, s, i);
    PieceProgress(u, s, i);
    MatchIsPiece(u, s, i, e);
  }

  /** The alternatives in order. */
  method Alternatives(u: Unicode, s: seq<int>, i: nat) returns (e: nat)
    requires Usable(u) && i < |s|
    ensures e == PieceEnd(u, s, i)
  {
    var m := ContractionPiece(s, i);
    if m.Some? { return m.value; }
    m := LetterPiece(u, s, i);
    if m.Some? { return m.value; }
    var number := TestAt(u, Number, s, i);
    if number { return i + 1; }
    m := OtherPiece(u, s, i);
    if m.Some? { return m.value; }
    e := SpacePiece(u, s, i);
  }
}
