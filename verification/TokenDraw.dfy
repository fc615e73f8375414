/**
 * The sampled path of the token sampler (tools/sp_daemon/src/sampler.rs) over the reals: penalties,
 * temperature, top-k, softmax, nucleus and the inverse-distribution draw. The exponential is a
 * parameter and so is the random number.
 */
module TokenDraw {
  import opened Logits

  datatype Params = Params(
    temperature: real, topK: nat, topP: real, repetition: real, frequency: real)

  const EPSILON: real := 1.0 / 8388608.0
  const COLDEST: real := 0.000001

  function Abs(x: real): real { if x < 0.0 then -x else x }

  /** All that is used of the exponential: it may vanish, but not at zero. */
  ghost predicate ExpLike(exp: real -> real) {
    exp(0.0) > 0.0 && forall x :: exp(x) >= 0.0
  }

  // ---- scores: what a logit may become on the sampled path ----

  datatype Score = Minus | Num(value: real) | Plus | NaN

  function AsScore(l: Logit): Score { if l.NegInf? then Minus else Num(l.value) }

  /** The product with a number; an infinity times zero is no number. */
  function Times(s: Score, x: real): Score {
    if s.Num? then Num(s.value * x)
    else if s.NaN? || x == 0.0 then NaN
    else if s.Plus? == (x > 0.0) then Plus else Minus
  }

  /** The quotient of a positive score. */
  function Over(s: Score, x: real): Score {
    if s.Num? && x != 0.0 then Num(s.value / x) else if x < 0.0 then Minus else Plus
  }

  predicate Positive(s: Score) { s.Plus? || (s.Num? && s.value > 0.0) }

  /** `partial_cmp` finds a not greater than b; what is no number counts as equal to everything. */
  predicate NotAbove(a: Score, b: Score) {
    a.NaN? || b.NaN? || a.Minus? || b.Plus? || (a.Num? && b.Num? && a.value <= b.value)
  }

  // ---- penalties and temperature ----

  function Count(history: seq<int>, t: int): nat {
    if history == [] then 0
    else Count(history[..|history| - 1], t) + (if history[|history| - 1] == t then 1 else 0)
  }

  lemma {:induction false} CountedIsGenerated(history: seq<int>, t: int)
    ensures Count(history, t) > 0 <==> t in history
  {
    if history != [] {
      CountedIsGenerated(history[..|history| - 1], t);
      assert history == history[..|history| - 1] + [history[|history| - 1]];
    }
  }

  predicate RepetitionOn(p: Params) { Abs(p.repetition - 1.0) > EPSILON }

  predicate FrequencyOn(p: Params) { Abs(p.frequency) > EPSILON }

  /** The repetition penalty divides a positive score and multiplies the others. */
  function Repeated(p: Params, s: Score): Score {
    if !RepetitionOn(p) then s else if Positive(s) then Over(s, p.repetition) else Times(s, p.repetition)
  }

  /** The frequency penalty of n occurrences. */
  function Lowered(p: Params, s: Score, n: nat): Score {
    if FrequencyOn(p) && s.Num? then Num(s.value - p.frequency * n as real) else s
  }

  /** A score whose token was generated n times: repetition penalised once, frequency n times. */
  function Penalised(p: Params, s: Score, n: nat): Score {
    if n == 0 then s else Lowered(p, Repeated(p, s), n)
  }

  function Heat(p: Params): (h: real)
    ensures h > 0.0
  {
    if p.temperature < COLDEST then COLDEST else p.temperature
  }

  function Cooled(p: Params, s: Score): Score {
    if s.Num? then Num(s.value / Heat(p)) else s
  }

  function Shape(p: Params, l: Logit, n: nat): Score { Cooled(p, Penalised(p, AsScore(l), n)) }

  ghost predicate IsShaped(p: Params, history: seq<int>, row: seq<Logit>, shaped: seq<Score>) {
    && |shaped| == |row|
    && forall j | 0 <= j < |row| :: shaped[j] == Shape(p, row[j], Count(history, j))
  }

  /** Some masked token was generated before. */
  ghost predicate MaskedAgain(history: seq<int>, row: seq<Logit>) {
    exists j: nat :: j < |row| && row[j].NegInf? && Count(history, j) > 0
  }

  /** A repetition penalty of zero or below meets a masked token that was generated before. */
  ghost predicate Revived(p: Params, history: seq<int>, row: seq<Logit>) {
    p.repetition <= 0.0 && MaskedAgain(history, row)
  }

  /**
   * A masked token stays at minus infinity unless it was generated before and the repetition penalty
   * is not positive: a negative one lifts it to plus infinity, and times zero it is no number.
   */
  lemma ShapedMask(p: Params, n: nat)
    ensures n == 0 || p.repetition > 0.0 ==> Shape(p, NegInf, n).Minus?
    ensures n > 0 && p.repetition < 0.0 ==> Shape(p, NegInf, n).Plus?
    ensures n > 0 && p.repetition == 0.0 ==> Shape(p, NegInf, n).NaN?
  {}

  /** An unmasked token is never shaped to minus infinity, and to plus infinity only by a penalty of zero. */
  lemma ShapedNumber(p: Params, v: real, n: nat)
    ensures Shape(p, Fin(v), n).Num? || Shape(p, Fin(v), n).Plus?
    ensures p.repetition != 0.0 ==> Shape(p, Fin(v), n).Num?
  {}

  lemma PenalisedNext(p: Params, s: Score, n: nat)
    ensures Penalised(p, s, n + 1) == Lowered(p, if n == 0 then Repeated(p, s) else Penalised(p, s, n), 1)
  {
    assert p.frequency * (n + 1) as real == p.frequency * n as real + p.frequency * 1 as real;
  }

  /** One step of the walk over the history. `first` says that the token was not seen before. */
  method PenaliseOne(row: array<Score>, i: nat, p: Params, first: bool)
    requires i < row.Length
    modifies row
    ensures forall j | 0 <= j < row.Length && j != i :: row[j] == old(row[j])
    ensures forall s: Score, n: nat | old(row[i]) == Penalised(p, s, n) && (first <==> n == 0) ::
              row[i] == Penalised(p, s, n + 1)
  {
    ghost var was := row[i];
    if RepetitionOn(p) && first {
      row[i] := if Positive(row[i]) then Over(row[i], p.repetition) else Times(row[i], p.repetition);
    }
    if FrequencyOn(p) && row[i].Num? { row[i] := Num(row[i].value - p.frequency); }
    forall s: Score, n: nat | was == Penalised(p, s, n) && (first <==> n == 0)
      ensures row[i] == Penalised(p, s, n + 1)
    {
      PenalisedNext(p, s, n);
    }
  }

  lemma CountNext(history: seq<int>, x: nat, j: int)
    requires x < |history|
    ensures Count(history[..x + 1], j) == Count(history[..x], j) + (if history[x] == j then 1 else 0)
  {
    assert history[..x + 1][..x] == history[..x];
  }

  /** The penalties, in place. Ids outside the row are passed over. */
  method Penalise(row: array<Score>, history: seq<int>, p: Params)
    modifies row
    ensures forall j | 0 <= j < row.Length :: row[j] == Penalised(p, old(row[j]), Count(history, j))
  {
    var seen: set<int> := {};
    for x := 0 to |history|
      invariant forall j | 0 <= j < row.Length :: j in seen <==> Count(history[..x], j) > 0
      invariant forall j | 0 <= j < row.Length :: row[j] == Penalised(p, old(row[j]), Count(history[..x], j))
    {
      var t := history[x];
      forall j | 0 <= j < row.Length
        ensures Count(history[..x + 1], j) == Count(history[..x], j) + (if t == j then 1 else 0)
      {
        CountNext(history, x, j);
      }
      if 0 <= t < row.Length {
        PenaliseOne(row, t, p, t !in seen);
        seen := seen + {t};
      }
    }
    assert history[..|history|] == history;
  }

  method Cool(row: array<Score>, p: Params)
    modifies row
    ensures forall j | 0 <= j < row.Length :: row[j] == Cooled(p, old(row[j]))
  {
    var heat := Heat(p);
    for x := 0 to row.Length
      invariant forall j | 0 <= j < row.Length :: row[j] == if j < x then Cooled(p, old(row[j])) else old(row[j])
    {
      if row[x].Num? { row[x] := Num(row[x].value / heat); }
    }
  }

  // ---- the candidates ----

  datatype Candidate = Candidate(id: nat, score: Score)

  predicate Descending(cand: seq<Candidate>) {
    forall a, b | 0 <= a < b < |cand| :: NotAbove(cand[b].score, cand[a].score)
  }

  predicate Comparable(row: seq<Score>) { forall j | 0 <= j < |row| :: !row[j].NaN? }

  predicate Lists(row: seq<Score>, cand: seq<Candidate>) {
    && |cand| == |row|
    && (forall a | 0 <= a < |cand| :: cand[a].id < |row| && cand[a].score == row[cand[a].id])
    && (forall j: nat | j < |row| :: Candidate(j, row[j]) in cand)
  }

  /**
   * The tokens of the row by falling score, equal ones in any order. One score that is no number
   * makes the comparison inconsistent, and then the order is left open.
   */
  predicate IsRanking(row: seq<Score>, cand: seq<Candidate>) {
    Lists(row, cand) && (Comparable(row) ==> Descending(cand))
  }

  function Insert(cand: seq<Candidate>, c: Candidate): (r: seq<Candidate>)
    ensures |r| == |cand| + 1 && forall x :: x in r <==> x in cand || x == c
  {
    if cand == [] || NotAbove(cand[0].score, c.score) then [c] + cand else [cand[0]] + Insert(cand[1..], c)
  }

  lemma {:induction false} InsertDescends(cand: seq<Candidate>, c: Candidate)
    requires Descending(cand) && !c.score.NaN? && forall x | x in cand :: !x.score.NaN?
    ensures Descending(Insert(cand, c))
  {
    if cand != [] {
      assert cand[0] in cand;
      if !NotAbove(cand[0].score, c.score) {
        forall x | x in cand[1..] ensures x in cand {}
        InsertDescends(cand[1..], c);
        var rest := Insert(cand[1..], c);
        forall b | 0 <= b < |rest| ensures NotAbove(rest[b].score, cand[0].score) {
          assert rest[b] in rest;
          assert rest[b] in cand[1..] || rest[b] == c;
        }
      } else {
        forall b | 0 <= b < |cand| ensures NotAbove(cand[b].score, c.score) {
          assert cand[b] in cand;
          assert b > 0 ==> NotAbove(cand[b].score, cand[0].score);
        }
      }
    }
  }

  /** The first n tokens of the row, ranked. */
  function Ranked(row: seq<Score>, n: nat): (cand: seq<Candidate>)
    requires n <= |row|
    ensures |cand| == n
    ensures forall c | c in cand :: c.id < n && c.score == row[c.id]
    ensures forall j: nat | j < n :: Candidate(j, row[j]) in cand
  {
    if n == 0 then [] else Insert(Ranked(row, n - 1), Candidate(n - 1, row[n - 1]))
  }

  lemma {:induction false} RankedDescends(row: seq<Score>, n: nat)
    requires n <= |row| && Comparable(row)
    ensures Descending(Ranked(row, n))
  {
    if n > 0 {
      RankedDescends(row, n - 1);
      var cand := Ranked(row, n - 1);
      forall x | x in cand ensures !x.score.NaN? { assert x.score == row[x.id]; }
      InsertDescends(cand, Candidate(n - 1, row[n - 1]));
    }
  }

  /** Every row has a ranking. */
  lemma RankedIsRanking(row: seq<Score>)
    ensures IsRanking(row, Ranked(row, |row|))
  {
    var cand := Ranked(row, |row|);
    forall a | 0 <= a < |cand| ensures cand[a].id < |row| && cand[a].score == row[cand[a].id] {
      assert cand[a] in cand;
    }
    if Comparable(row) { RankedDescends(row, |row|); }
  }

  method Rank(row: array<Score>) returns (cand: seq<Candidate>)
    ensures IsRanking(row[..], cand)
  {
    cand := [];
    for x := 0 to row.Length
      invariant cand == Ranked(row[..], x)
    {
      cand := Insert(cand, Candidate(x, row[x]));
    }
    RankedIsRanking(row[..]);
  }

  /** The candidates that top-k keeps; no limit at zero. */
  function Kept(p: Params, len: nat): (k: nat)
    requires len > 0
    ensures 0 < k <= len
  {
    if p.topK == 0 || p.topK > len then len else p.topK
  }

  // ---- the distribution ----

  function Upto(w: seq<real>, n: nat): real
    requires n <= |w|
  {
    if n == 0 then 0.0 else Upto(w, n - 1) + w[n - 1]
  }

  predicate Weights(w: seq<real>) { forall i | 0 <= i < |w| :: w[i] >= 0.0 }

  lemma {:induction false} UptoGrows(w: seq<real>, m: nat, n: nat)
    requires Weights(w) && m <= n <= |w|
    ensures Upto(w, m) <= Upto(w, n)
  {
    if m < n { UptoGrows(w, m, n - 1); }
  }

  /** exp(score - top) as the loop computes it, with every infinity that may meet. */
  function Weight(exp: real -> real, top: Score, s: Score): Score {
    if top.NaN? || s.NaN? then NaN
    else if top.Num? then (if s.Num? then Num(exp(s.value - top.value)) else if s.Minus? then Num(0.0) else Plus)
    else if top == s then NaN
    else if top.Plus? then Num(0.0) else Plus
  }

  ghost predicate AreWeights(exp: real -> real, cand: seq<Candidate>, w: seq<real>) {
    && 0 < |cand| == |w|
    && forall i | 0 <= i < |w| :: Num(w[i]) == Weight(exp, cand[0].score, cand[i].score)
  }

  /** The best score is a number and no other is above all numbers: the sum of the weights is finite. */
  predicate Proper(cand: seq<Candidate>) {
    && cand != [] && cand[0].score.Num?
    && forall i | 0 <= i < |cand| :: cand[i].score.Num? || cand[i].score.Minus?
  }

  predicate Scaled(w: seq<real>, s: real, probs: seq<real>)
    requires s > 0.0
  {
    |probs| == |w| && forall i | 0 <= i < |w| :: probs[i] == w[i] / s
  }

  /** The probabilities are the weights over their sum. */
  ghost predicate IsSoftmax(exp: real -> real, cand: seq<Candidate>, w: seq<real>, probs: seq<real>) {
    AreWeights(exp, cand, w) && Upto(w, |w|) > 0.0 && Scaled(w, Upto(w, |w|), probs)
  }

  function Clamped(p: Params): real { if p.topP < 0.0 then 0.0 else if p.topP > 1.0 then 1.0 else p.topP }

  /** The first n candidates are the fewest that hold the probability top-p; all of them at one. */
  predicate IsNucleus(p: Params, probs: seq<real>, n: nat) {
    && 0 < n <= |probs|
    && (Clamped(p) >= 1.0 ==> n == |probs|)
    && (Clamped(p) < 1.0 ==> Upto(probs, n) >= Clamped(p))
    && (Clamped(p) < 1.0 ==> forall m: nat | 0 < m < n :: Upto(probs, m) < Clamped(p))
  }

  function Point(u: real, total: real): real { u * total }

  /** The share u of the weight of the first n candidates falls to candidate i. */
  predicate FallsOn(w: seq<real>, n: nat, u: real, i: nat)
    requires n <= |w|
  {
    i < n && Upto(w, i) <= Point(u, Upto(w, n)) < Upto(w, i + 1)
  }

  lemma ShareIsBelow(u: real, s: real)
    requires 0.0 <= u < 1.0 && s > 0.0
    ensures 0.0 <= Point(u, s) < s
  {
    assert (1.0 - u) * s > 0.0;
  }

  /** Every u below one falls to one candidate and to no other. */
  lemma OneCandidate(w: seq<real>, n: nat, u: real) returns (i: nat)
    requires Weights(w) && n <= |w| && 0.0 <= u < 1.0 && Upto(w, n) > 0.0
    ensures FallsOn(w, n, u, i)
    ensures forall j: nat :: FallsOn(w, n, u, j) ==> j == i
  {
    var r := Point(u, Upto(w, n));
    ShareIsBelow(u, Upto(w, n));
    i := 0;
    while r >= Upto(w, i + 1)
      invariant i < n && Upto(w, i) <= r
      decreases n - i
    {
      i := i + 1;
    }
    forall j: nat | FallsOn(w, n, u, j) ensures j == i {
      if j < i { UptoGrows(w, j + 1, i); }
      if i < j { UptoGrows(w, i + 1, j); }
    }
  }

  /** The share of candidate i is the interval of length w[i] over the weight of the nucleus. */
  lemma ShareIsProportional(w: seq<real>, n: nat, u: real, i: nat)
    requires n <= |w| && i < n && Upto(w, n) > 0.0
    ensures FallsOn(w, n, u, i) <==> Upto(w, i) / Upto(w, n) <= u < Upto(w, i + 1) / Upto(w, n)
    ensures Upto(w, i + 1) / Upto(w, n) - Upto(w, i) / Upto(w, n) == w[i] / Upto(w, n)
  {
    Quotient(Upto(w, i), u, Upto(w, n));
    Quotient(Upto(w, i + 1), u, Upto(w, n));
    Difference(Upto(w, i), w[i], Upto(w, n));
  }

  lemma Quotient(a: real, u: real, s: real)
    requires s > 0.0
    ensures a / s <= u <==> a <= Point(u, s)
  {
    var q := a / s;
    assert q * s == a;
    if q <= u { assert q * s <= u * s; } else { assert u * s < q * s; }
  }

  lemma Difference(a: real, b: real, s: real)
    requires s > 0.0
    ensures (a + b) / s == a / s + b / s
  {}

  // ---- the draw ----

  /** The token that share u of the nucleus falls on, or the first candidate if the weights have no finite sum. */
  ghost predicate Drawn(p: Params, exp: real -> real, cand: seq<Candidate>, u: real, t: int) {
    && cand != []
    && (!Proper(cand) ==> t == cand[0].id)
    && (Proper(cand) ==>
          exists w, probs, n: nat, i: nat :: DrawnAt(p, exp, cand, w, probs, n, u, i) && t == cand[i].id)
  }

  ghost predicate DrawnAt(p: Params, exp: real -> real, cand: seq<Candidate>,
                          w: seq<real>, probs: seq<real>, n: nat, u: real, i: nat) {
    IsSoftmax(exp, cand, w, probs) && IsNucleus(p, probs, n) && FallsOn(probs, n, u, i)
  }

  /** The sum of the first n numbers, as the loops add it up. */
  method Sum(w: seq<real>) returns (s: real)
    ensures s == Upto(w, |w|)
  {
    s := 0.0;
    for i := 0 to |w|
      invariant s == Upto(w, i)
    {
      s := s + w[i];
    }
  }

  lemma {:induction false} ScaledUpto(w: seq<real>, s: real, probs: seq<real>, n: nat)
    requires s > 0.0 && Scaled(w, s, probs) && n <= |w|
    ensures Upto(probs, n) == Upto(w, n) / s
  {
    if n > 0 {
      ScaledUpto(w, s, probs, n - 1);
      Difference(Upto(w, n - 1), w[n - 1], s);
    }
  }

  lemma Ordered(a: real, b: real, s: real)
    requires s > 0.0
    ensures a >= b <==> a * s >= b * s
  {
    if a >= b { assert (a - b) * s >= 0.0; } else { assert (b - a) * s > 0.0; }
  }

  /** The sum of two weights, which are never minus infinity. */
  function AddedTo(a: Score, b: Score): Score {
    if a.Num? && b.Num? then Num(a.value + b.value) else if a.NaN? || b.NaN? then NaN else Plus
  }

  /** The weights and their sum. */
  method Weigh(exp: real -> real, cand: seq<Candidate>) returns (w: seq<real>, sum: Score)
    requires cand != []
    ensures sum.Num? <==> Proper(cand)
    ensures sum.Num? ==> AreWeights(exp, cand, w) && sum.value == Upto(w, |w|)
  {
    w, sum := [], Num(0.0);
    for i := 0 to |cand|
      invariant sum.Num? <==> forall x | 0 <= x < i :: Weight(exp, cand[0].score, cand[x].score).Num?
      invariant sum.Num? ==> |w| == i && sum.value == Upto(w, i)
      invariant sum.Num? ==> forall x | 0 <= x < i :: Num(w[x]) == Weight(exp, cand[0].score, cand[x].score)
    {
      var one := Weight(exp, cand[0].score, cand[i].score);
      sum := AddedTo(sum, one);
      if sum.Num? {
        UptoPush(w, one.value);
        w := w + [one.value];
      }
    }
    WeightsAreNumbers(exp, cand);
  }

  lemma UptoPush(w: seq<real>, x: real)
    ensures Upto(w + [x], |w| + 1) == Upto(w, |w|) + x
  {
    SumOfPrefix(w + [x], |w|, |w|);
    assert (w + [x])[..|w|] == w;
  }

  /** Subtracting the best score from itself gives no number unless it is one. */
  lemma WeightsAreNumbers(exp: real -> real, cand: seq<Candidate>)
    requires cand != []
    ensures Proper(cand) <==> forall i | 0 <= i < |cand| :: Weight(exp, cand[0].score, cand[i].score).Num?
  {
    var top := cand[0].score;
    forall i | 0 <= i < |cand|
      ensures top.Num? ==>
                (Weight(exp, top, cand[i].score).Num? <==> cand[i].score.Num? || cand[i].score.Minus?)
    {}
    if !top.Num? { assert !Weight(exp, top, cand[0].score).Num?; }
  }

  method Normalise(w: seq<real>, s: real) returns (probs: seq<real>)
    requires s > 0.0
    ensures Scaled(w, s, probs)
  {
    probs := [];
    for i := 0 to |w|
      invariant |probs| == i && forall x | 0 <= x < i :: probs[x] == w[x] / s
    {
      probs := probs + [w[i] / s];
    }
  }

  method Nucleus(p: Params, probs: seq<real>) returns (n: nat)
    requires probs != [] && Upto(probs, |probs|) == 1.0
    ensures IsNucleus(p, probs, n)
  {
    var topP := Clamped(p);
    n := |probs|;
    if topP < 1.0 {
      var acc, i := 0.0, 0;
      while i < |probs|
        invariant i <= |probs| && acc == Upto(probs, i) && (i > 0 ==> acc < topP)
        invariant forall m: nat | 0 < m <= i :: Upto(probs, m) < topP
      {
        acc := acc + probs[i];
        i := i + 1;
        if acc >= topP { n := i; return; }
      }
    }
  }

  /** The scan always stops at a candidate, so the fall-through to the last one is never taken. */
  method Pick(probs: seq<real>, n: nat, r: real) returns (i: nat)
    requires n <= |probs| && 0.0 <= r < Upto(probs, n)
    ensures i < n && Upto(probs, i) <= r < Upto(probs, i + 1)
  {
    var acc := probs[0];
    i := 0;
    while r >= acc
      invariant i < n && acc == Upto(probs, i + 1) && Upto(probs, i) <= r
      decreases n - i
    {
      i := i + 1;
      acc := acc + probs[i];
    }
  }

  /** The candidate on which the share u of the nucleus falls. */
  method Spin(probs: seq<real>, n: nat, u: real) returns (i: nat)
    requires n <= |probs| && 0.0 <= u < 1.0 && Upto(probs, n) > 0.0
    ensures FallsOn(probs, n, u, i)
  {
    var total := Sum(probs[..n]);
    SumOfPrefix(probs, n, n);
    ShareIsBelow(u, total);
    i := Pick(probs, n, Point(u, total));
  }

  lemma {:induction false} SumOfPrefix(w: seq<real>, n: nat, m: nat)
    requires m <= n <= |w|
    ensures Upto(w[..n], m) == Upto(w, m)
  {
    if m > 0 { SumOfPrefix(w, n, m - 1); }
  }

  /** The weights are not negative, and that of the best score is positive. */
  lemma WeightsOf(exp: real -> real, cand: seq<Candidate>, w: seq<real>)
    requires ExpLike(exp) && Proper(cand) && AreWeights(exp, cand, w)
    ensures Weights(w) && w[0] > 0.0 && Upto(w, |w|) > 0.0
  {
    forall i | 0 <= i < |w| ensures w[i] >= 0.0 {
      assert Num(w[i]) == Weight(exp, cand[0].score, cand[i].score);
    }
    assert Num(w[0]) == Num(exp(0.0));
    UptoGrows(w, 1, |w|);
    assert Upto(w, 1) == Upto(w, 0) + w[0];
  }

  /** The probabilities of a softmax: none negative, their sum one, positive where the weight is. */
  lemma Distribution(exp: real -> real, cand: seq<Candidate>, w: seq<real>, probs: seq<real>)
    requires ExpLike(exp) && Proper(cand) && IsSoftmax(exp, cand, w, probs)
    ensures Weights(probs) && Upto(probs, |probs|) == 1.0
    ensures forall i | 0 <= i < |probs| :: probs[i] > 0.0 <==> w[i] > 0.0
  {
    var s := Upto(w, |w|);
    WeightsOf(exp, cand, w);
    forall i | 0 <= i < |probs| ensures probs[i] >= 0.0 && (probs[i] > 0.0 <==> w[i] > 0.0) {
      Share(w[i], s);
    }
    SumsToOne(w, probs);
  }

  lemma SumsToOne(w: seq<real>, probs: seq<real>)
    requires Upto(w, |w|) > 0.0 && Scaled(w, Upto(w, |w|), probs)
    ensures Upto(probs, |probs|) == 1.0
  {
    ScaledUpto(w, Upto(w, |w|), probs, |w|);
    Whole(Upto(w, |w|));
  }

  lemma Share(x: real, s: real)
    requires x >= 0.0 && s > 0.0
    ensures x / s >= 0.0 && (x / s > 0.0 <==> x > 0.0)
  {
    Ordered(x / s, 0.0, s);
    Ordered(0.0, x / s, s);
  }

  lemma Whole(s: real)
    requires s > 0.0
    ensures s / s == 1.0
  {}

  /** Every nucleus has weight: it holds the most likely candidate. */
  lemma NucleusHasWeight(exp: real -> real, cand: seq<Candidate>, w: seq<real>, probs: seq<real>, n: nat)
    requires ExpLike(exp) && Proper(cand) && IsSoftmax(exp, cand, w, probs) && 0 < n <= |probs|
    ensures Upto(probs, n) > 0.0
  {
    WeightsOf(exp, cand, w);
    Distribution(exp, cand, w, probs);
    UptoGrows(probs, 1, n);
    assert Upto(probs, 1) == Upto(probs, 0) + probs[0];
  }

  /** Softmax over the candidates, the nucleus, and the draw. */
  method Choose(p: Params, exp: real -> real, cand: seq<Candidate>, u: real) returns (t: int)
    requires cand != [] && ExpLike(exp) && 0.0 <= u < 1.0
    ensures Drawn(p, exp, cand, u, t)
  {
    var w, sum := Weigh(exp, cand);
    if sum.Num? { WeightsOf(exp, cand, w); }
    if !sum.Num? || sum.value <= 0.0 { return cand[0].id; }
    var probs := Normalise(w, sum.value);
    Distribution(exp, cand, w, probs);
    var n := Nucleus(p, probs);
    NucleusHasWeight(exp, cand, w, probs, n);
    var i := Spin(probs, n, u);
    t := cand[i].id;
    assert DrawnAt(p, exp, cand, w, probs, n, u, i);
  }

  /** A drawn candidate has a number for a score if the best one has: its probability is positive. */
  lemma DrawnIsNumber(p: Params, exp: real -> real, cand: seq<Candidate>, u: real, t: int)
    requires ExpLike(exp) && Drawn(p, exp, cand, u, t) && Proper(cand)
    ensures exists i: nat :: i < |cand| && cand[i].id == t && cand[i].score.Num?
  {
    var w, probs, n: nat, i: nat :| DrawnAt(p, exp, cand, w, probs, n, u, i) && t == cand[i].id;
    Distribution(exp, cand, w, probs);
    assert Upto(probs, i + 1) == Upto(probs, i) + probs[i];
    assert Num(w[i]) == Weight(exp, cand[0].score, cand[i].score);
  }

  lemma SameSoftmax(exp: real -> real, cand: seq<Candidate>,
                    w: seq<real>, probs: seq<real>, w': seq<real>, probs': seq<real>)
    requires IsSoftmax(exp, cand, w, probs) && IsSoftmax(exp, cand, w', probs')
    ensures probs == probs'
  {
    forall i | 0 <= i < |w| ensures w[i] == w'[i] {
      assert Num(w[i]) == Weight(exp, cand[0].score, cand[i].score) == Num(w'[i]);
    }
    assert w == w';
  }

  lemma SamePoint(p: Params, probs: seq<real>, n: nat, n': nat, u: real, i: nat, i': nat)
    requires Weights(probs) && 0.0 <= u < 1.0 && 0 < n <= |probs| && Upto(probs, n) > 0.0
    requires IsNucleus(p, probs, n) && IsNucleus(p, probs, n') && FallsOn(probs, n, u, i) && FallsOn(probs, n', u, i')
    ensures i == i'
  {
    assert n == n';
    var only := OneCandidate(probs, n, u);
  }

  /** One number draws one token from one list of candidates. */
  lemma DrawIsFunctional(p: Params, exp: real -> real, cand: seq<Candidate>, u: real, t: int, t': int)
    requires ExpLike(exp) && 0.0 <= u < 1.0 && Drawn(p, exp, cand, u, t) && Drawn(p, exp, cand, u, t')
    ensures t == t'
  {
    if Proper(cand) {
      var w, probs, n: nat, i: nat :| DrawnAt(p, exp, cand, w, probs, n, u, i) && t == cand[i].id;
      var w', probs', n': nat, i': nat :| DrawnAt(p, exp, cand, w', probs', n', u, i') && t' == cand[i'].id;
      SameSoftmax(exp, cand, w, probs, w', probs');
      Distribution(exp, cand, w, probs);
      NucleusHasWeight(exp, cand, w, probs, n);
      SamePoint(p, probs, n, n', u, i, i');
    }
  }

  /** No token outside the first k exceeds one inside. */
  lemma RankingKeepsLikeliest(row: seq<Score>, cand: seq<Candidate>, k: nat, j: nat)
    requires IsRanking(row, cand) && Comparable(row) && k <= |cand| && j < |row|
    requires forall a | 0 <= a < k :: cand[a].id != j
    ensures forall a | 0 <= a < k :: NotAbove(row[j], cand[a].score)
  {
    var b :| 0 <= b < |cand| && cand[b] == Candidate(j, row[j]);
  }

  /** A ranking begins with a maximum. */
  lemma RankingStartsAtMax(row: seq<Score>, cand: seq<Candidate>)
    requires IsRanking(row, cand) && Comparable(row) && row != []
    ensures forall j: nat | j < |row| :: NotAbove(row[j], cand[0].score)
  {
    forall j: nat | j < |row| ensures NotAbove(row[j], cand[0].score) {
      var b :| 0 <= b < |cand| && cand[b] == Candidate(j, row[j]);
      assert b > 0 ==> NotAbove(cand[b].score, cand[0].score);
    }
  }

  /** What one draw from a masked row does: shape, rank, truncate, draw. */
  ghost predicate DrawnFrom(p: Params, exp: real -> real, history: seq<int>, row: seq<Logit>, u: real, t: int)
    requires row != []
  {
    exists shaped, cand :: RankedBy(p, history, row, shaped, cand) && Drawn(p, exp, cand[..Kept(p, |row|)], u, t)
  }

  ghost predicate RankedBy(p: Params, history: seq<int>, row: seq<Logit>, shaped: seq<Score>, cand: seq<Candidate>) {
    IsShaped(p, history, row, shaped) && IsRanking(shaped, cand)
  }

  /** The sampled path after the masks. */
  method DrawToken(row: array<Logit>, history: seq<int>, p: Params, exp: real -> real, u: real) returns (t: int)
    requires row.Length > 0 && ExpLike(exp) && 0.0 <= u < 1.0
    ensures DrawnFrom(p, exp, history, row[..], u, t)
  {
    var scores := new Score[row.Length](i requires 0 <= i < row.Length reads row => AsScore(row[i]));
    Penalise(scores, history, p);
    Cool(scores, p);
    assert IsShaped(p, history, row[..], scores[..]);
    var cand := Rank(scores);
    assert RankedBy(p, history, row[..], scores[..], cand);
    t := Choose(p, exp, cand[..Kept(p, row.Length)], u);
  }

  // ---- what a draw keeps of the masks ----

  predicate HasUnmasked(row: seq<Logit>) { exists j :: 0 <= j < |row| && row[j].Fin? }

  /** With no masked token revived, every masked token is at minus infinity and no other is. */
  lemma MasksStay(p: Params, history: seq<int>, row: seq<Logit>, shaped: seq<Score>)
    requires IsShaped(p, history, row, shaped) && !Revived(p, history, row)
    ensures Comparable(shaped) && forall j | 0 <= j < |row| :: shaped[j].Minus? <==> row[j].NegInf?
  {
    forall j: nat | j < |row| ensures !shaped[j].NaN? && (shaped[j].Minus? <==> row[j].NegInf?) {
      if row[j].NegInf? { ShapedMask(p, Count(history, j)); } else { ShapedNumber(p, row[j].value, Count(history, j)); }
    }
  }

  /** Below a negative penalty exactly the masked tokens generated before are at plus infinity. */
  lemma RevivedIsPlus(p: Params, history: seq<int>, row: seq<Logit>, shaped: seq<Score>)
    requires IsShaped(p, history, row, shaped) && p.repetition < 0.0
    ensures Comparable(shaped)
    ensures forall j | 0 <= j < |row| :: shaped[j].Plus? <==> row[j].NegInf? && Count(history, j) > 0
  {
    forall j: nat | j < |row|
      ensures !shaped[j].NaN? && (shaped[j].Plus? <==> row[j].NegInf? && Count(history, j) > 0)
    {
      if row[j].NegInf? { ShapedMask(p, Count(history, j)); } else { ShapedNumber(p, row[j].value, Count(history, j)); }
    }
  }

  /** What is drawn is among the candidates: the first one, or one whose score is a number. */
  lemma DrawnIsCandidate(p: Params, exp: real -> real, cand: seq<Candidate>, u: real, t: int) returns (i: nat)
    requires Drawn(p, exp, cand, u, t)
    ensures i < |cand| && cand[i].id == t
    ensures ExpLike(exp) && Proper(cand) ==> cand[i].score.Num?
    ensures !Proper(cand) ==> i == 0
  {
    i := 0;
    if Proper(cand) {
      if ExpLike(exp) {
        DrawnIsNumber(p, exp, cand, u, t);
        i :| i < |cand| && cand[i].id == t && cand[i].score.Num?;
      } else {
        var w, probs, n: nat, x: nat :| DrawnAt(p, exp, cand, w, probs, n, u, x) && t == cand[x].id;
        i := x;
      }
    }
  }

  lemma DrawnIsListed(p: Params, exp: real -> real, row: seq<Score>, cand: seq<Candidate>, u: real, t: int)
    requires row != [] && IsRanking(row, cand) && Drawn(p, exp, cand[..Kept(p, |row|)], u, t)
    ensures 0 <= t < |row|
    ensures ExpLike(exp) && Proper(cand[..Kept(p, |row|)]) ==> row[t].Num?
    ensures !Proper(cand[..Kept(p, |row|)]) ==> t == cand[0].id
  {
    var kept := cand[..Kept(p, |row|)];
    var i := DrawnIsCandidate(p, exp, kept, u, t);
    assert kept[i] == cand[i];
  }

  /** With no masked token revived a draw is unmasked as soon as some token is. */
  lemma UnrevivedDraw(p: Params, exp: real -> real, history: seq<int>, row: seq<Logit>, shaped: seq<Score>,
                      cand: seq<Candidate>, u: real, t: int)
    requires row != [] && ExpLike(exp) && RankedBy(p, history, row, shaped, cand)
    requires Drawn(p, exp, cand[..Kept(p, |row|)], u, t) && !Revived(p, history, row) && HasUnmasked(row)
    ensures 0 <= t < |row| && row[t].Fin?
  {
    MasksStay(p, history, row, shaped);
    DrawnIsListed(p, exp, shaped, cand, u, t);
    if !Proper(cand[..Kept(p, |row|)]) {
      var j: nat :| j < |row| && row[j].Fin?;
      RankingStartsAtMax(shaped, cand);
      assert NotAbove(shaped[j], cand[0].score);
    }
  }

  /** Below a negative penalty a revived token is drawn. */
  lemma RevivedDraw(p: Params, exp: real -> real, history: seq<int>, row: seq<Logit>, shaped: seq<Score>,
                    cand: seq<Candidate>, u: real, t: int)
    requires row != [] && RankedBy(p, history, row, shaped, cand) && Drawn(p, exp, cand[..Kept(p, |row|)], u, t)
    requires p.repetition < 0.0 && Revived(p, history, row)
    ensures 0 <= t < |row| && row[t].NegInf? && Count(history, t) > 0
  {
    RevivedIsPlus(p, history, row, shaped);
    DrawnIsListed(p, exp, shaped, cand, u, t);
    var j: nat :| j < |row| && row[j].NegInf? && Count(history, j) > 0;
    RankingStartsAtMax(shaped, cand);
    assert NotAbove(shaped[j], cand[0].score);
    assert cand[..Kept(p, |row|)][0] == cand[0];
  }

  /**
   * A draw takes an unmasked token, if there is one, exactly when no masked token is revived. At a
   * negative penalty it takes a revived one instead.
   */
  lemma DrawAvoidsMasks(p: Params, exp: real -> real, history: seq<int>, row: seq<Logit>, u: real, t: int)
    requires row != [] && ExpLike(exp) && DrawnFrom(p, exp, history, row, u, t)
    ensures 0 <= t < |row|
    ensures HasUnmasked(row) && !Revived(p, history, row) ==> row[t].Fin?
    ensures HasUnmasked(row) && p.repetition != 0.0 ==> (row[t].Fin? <==> !Revived(p, history, row))
    ensures p.repetition < 0.0 && Revived(p, history, row) ==> row[t].NegInf? && Count(history, t) > 0
  {
    var shaped: seq<Score>, cand: seq<Candidate> :|
      RankedBy(p, history, row, shaped, cand) && Drawn(p, exp, cand[..Kept(p, |row|)], u, t);
    DrawnIsListed(p, exp, shaped, cand, u, t);
    if !Revived(p, history, row) {
      if HasUnmasked(row) { UnrevivedDraw(p, exp, history, row, shaped, cand, u, t); }
    } else if p.repetition < 0.0 {
      RevivedDraw(p, exp, history, row, shaped, cand, u, t);
    }
  }

  /** The identity list with candidate j in front. */
  function Fronted(row: seq<Score>, j: nat): seq<Candidate>
    requires j < |row|
  {
    seq(|row|, a requires 0 <= a < |row| =>
      var id := if a == 0 then j else if a == j then 0 else a;
      Candidate(id, row[id]))
  }

  lemma FrontedLists(row: seq<Score>, j: nat)
    requires j < |row|
    ensures Lists(row, Fronted(row, j))
  {
    var cand := Fronted(row, j);
    forall i: nat | i < |row| ensures Candidate(i, row[i]) in cand {
      assert cand[if i == j then 0 else if i == 0 then j else i] == Candidate(i, row[i]);
    }
  }

  /** At penalty zero a masked token generated before is no number, and some order draws it. */
  lemma ZeroMayDrawMasked(p: Params, exp: real -> real, history: seq<int>, row: seq<Logit>, u: real, j: nat)
    requires p.repetition == 0.0 && j < |row| && row[j].NegInf? && Count(history, j) > 0
    ensures DrawnFrom(p, exp, history, row, u, j)
  {
    var shaped := seq(|row|, i requires 0 <= i < |row| => Shape(p, row[i], Count(history, i)));
    ShapedMask(p, Count(history, j));
    assert shaped[j].NaN?;
    FrontedLists(shaped, j);
    var cand := Fronted(shaped, j);
    assert RankedBy(p, history, row, shaped, cand);
    assert cand[..Kept(p, |row|)][0] == cand[0];
    assert !Proper(cand[..Kept(p, |row|)]);
  }

  /** Below a negative penalty every row can be drawn from. */
  lemma NegativeDraws(p: Params, exp: real -> real, history: seq<int>, row: seq<Logit>, u: real) returns (t: int)
    requires p.repetition < 0.0 && Revived(p, history, row)
    ensures row != [] && DrawnFrom(p, exp, history, row, u, t)
  {
    var shaped := seq(|row|, i requires 0 <= i < |row| => Shape(p, row[i], Count(history, i)));
    var cand := Ranked(shaped, |shaped|);
    RankedIsRanking(shaped);
    RevivedIsPlus(p, history, row, shaped);
    RankingStartsAtMax(shaped, cand);
    var j: nat :| j < |row| && row[j].NegInf? && Count(history, j) > 0;
    assert NotAbove(shaped[j], cand[0].score);
    assert RankedBy(p, history, row, shaped, cand);
    t := cand[0].id;
    assert cand[..Kept(p, |row|)][0] == cand[0];
    assert !Proper(cand[..Kept(p, |row|)]);
  }

  /** For every penalty: no draw from the row is masked exactly when no masked token is revived. */
  lemma MasksHoldIff(p: Params, exp: real -> real, history: seq<int>, row: seq<Logit>)
    requires ExpLike(exp) && row != [] && HasUnmasked(row)
    ensures (forall u, t | 0.0 <= u < 1.0 && DrawnFrom(p, exp, history, row, u, t) :: 0 <= t < |row| && row[t].Fin?)
       <==> !Revived(p, history, row)
  {
    forall u, t | 0.0 <= u < 1.0 && DrawnFrom(p, exp, history, row, u, t) && !Revived(p, history, row)
      ensures 0 <= t < |row| && row[t].Fin?
    {
      DrawAvoidsMasks(p, exp, history, row, u, t);
    }
    if Revived(p, history, row) {
      var j: nat :| j < |row| && row[j].NegInf? && Count(history, j) > 0;
      if p.repetition == 0.0 {
        ZeroMayDrawMasked(p, exp, history, row, 0.0, j);
      } else {
        var t := NegativeDraws(p, exp, history, row, 0.0);
        DrawAvoidsMasks(p, exp, history, row, 0.0, t);
      }
    }
  }
}
