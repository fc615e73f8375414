/**
 * What the sampled path promises of a draw (tools/sp_daemon/src/sampler.rs), from the masked row, the
 * history and the parameters: the score of each token, which tokens are kept, their probabilities, and the
 * token on which the random number falls.
 */
module DrawLaw {
  import opened Logits
  import opened TokenDraw

  // ---- scores ----

  /** The temperature, at least a millionth. */
  function Divisor(p: Params): (d: real)
    ensures d > 0.0
  {
    if p.temperature < 0.000001 then 0.000001 else p.temperature
  }

  /** 2 to the power of -23: a penalty this close to its neutral value is off. */
  const TINY: real := 0.00000011920928955078125

  predicate Repeats(p: Params) { p.repetition - 1.0 > TINY || 1.0 - p.repetition > TINY }

  predicate Counts(p: Params) { p.frequency > TINY || -p.frequency > TINY }

  function Generated(history: seq<int>, j: int): nat { multiset(history)[j] }

  function RepeatedOnce(l: real, r: real): real
    requires r != 0.0
  {
    if l > 0.0 then l / r else l * r
  }

  /** What the frequency penalty takes from a token generated n times. */
  function Taken(p: Params, n: nat): real { if Counts(p) then p.frequency * n as real else 0.0 }

  /** A logit after the penalties for a token generated n times: once for repetition, n times for frequency. */
  function PenaltyOn(p: Params, l: real, n: nat): real
    requires p.repetition != 0.0
  {
    if n == 0 then l else (if Repeats(p) then RepeatedOnce(l, p.repetition) else l) - Taken(p, n)
  }

  function ScoreOf(p: Params, history: seq<int>, row: seq<Logit>, j: nat): Score
    requires p.repetition != 0.0 && j < |row|
  {
    if row[j].NegInf? then Minus else Num(PenaltyOn(p, row[j].value, Generated(history, j)) / Divisor(p))
  }

  lemma {:induction false} CountIsGenerated(history: seq<int>, j: int)
    ensures Count(history, j) == Generated(history, j)
  {
    if history != [] {
      var k := |history| - 1;
      CountIsGenerated(history[..k], j);
      assert history == history[..k] + [history[k]];
    }
  }

  lemma PenaltiesAgree(p: Params, l: real, n: nat)
    requires p.repetition != 0.0
    ensures Penalised(p, Num(l), n) == Num(PenaltyOn(p, l, n))
  {
    assert EPSILON == TINY;
  }

  lemma ScoresAgree(p: Params, history: seq<int>, row: seq<Logit>, shaped: seq<Score>, j: nat)
    requires p.repetition != 0.0 && IsShaped(p, history, row, shaped) && !Revived(p, history, row) && j < |row|
    ensures shaped[j] == ScoreOf(p, history, row, j)
  {
    CountIsGenerated(history, j);
    if row[j].NegInf? {
      ShapedMask(p, Count(history, j));
    } else {
      PenaltiesAgree(p, row[j].value, Count(history, j));
    }
  }

  // ---- what the penalties do ----

  /** A repetition penalty above one lowers what a generated token scores, or leaves it at zero. */
  lemma RepetitionLowers(p: Params, l: real, n: nat)
    requires p.repetition > 1.0 && Repeats(p) && n > 0
    ensures l == 0.0 ==> PenaltyOn(p, l, n) == -Taken(p, n)
    ensures l != 0.0 ==> PenaltyOn(p, l, n) < l - Taken(p, n)
  {
    RepeatedIsLess(l, p.repetition);
  }

  lemma RepeatedIsLess(l: real, r: real)
    requires r > 1.0
    ensures l != 0.0 ==> RepeatedOnce(l, r) < l
    ensures l == 0.0 ==> RepeatedOnce(l, r) == 0.0
  {
    RepeatedIs(l, r);
    if l > 0.0 { Stretches(RepeatedOnce(l, r), r); } else if l < 0.0 { Stretches(-l, r); }
    assert Product(-l, r) == -Product(l, r);
  }

  lemma RepeatedIs(l: real, r: real)
    requires r > 0.0
    ensures l <= 0.0 ==> RepeatedOnce(l, r) == Product(l, r)
    ensures l > 0.0 ==> RepeatedOnce(l, r) > 0.0 && Product(RepeatedOnce(l, r), r) == l
  {
    if l > 0.0 {
      Share(l, r);
      assert l / r * r == l;
    }
  }

  function Product(x: real, y: real): real { x * y }

  lemma Stretches(q: real, r: real)
    requires q > 0.0 && r > 1.0
    ensures q < Product(q, r)
  {
    assert q * r - q == q * (r - 1.0) > 0.0;
  }

  /** One between zero and one raises it, or leaves it at zero. */
  lemma RepetitionRaises(p: Params, l: real, n: nat)
    requires 0.0 < p.repetition < 1.0 && Repeats(p) && n > 0
    ensures l == 0.0 ==> PenaltyOn(p, l, n) == -Taken(p, n)
    ensures l != 0.0 ==> PenaltyOn(p, l, n) > l - Taken(p, n)
  {
    RepeatedIsMore(l, p.repetition);
  }

  lemma RepeatedIsMore(l: real, r: real)
    requires 0.0 < r < 1.0
    ensures l != 0.0 ==> RepeatedOnce(l, r) > l
    ensures l == 0.0 ==> RepeatedOnce(l, r) == 0.0
  {
    RepeatedIs(l, r);
    if l > 0.0 { Shrinks(RepeatedOnce(l, r), r); } else if l < 0.0 { Shrinks(-l, r); }
    assert Product(-l, r) == -Product(l, r);
  }

  lemma Shrinks(q: real, r: real)
    requires q > 0.0 && 0.0 < r < 1.0
    ensures Product(q, r) < q
  {
    assert q - q * r == q * (1.0 - r) > 0.0;
  }

  /** Each further time a token was generated takes the frequency penalty once more. */
  lemma FrequencyLowers(p: Params, l: real, n: nat)
    requires p.repetition != 0.0 && Counts(p) && n > 0
    ensures PenaltyOn(p, l, n) == PenaltyOn(p.(frequency := 0.0), l, n) - p.frequency * n as real
    ensures PenaltyOn(p, l, n + 1) == PenaltyOn(p, l, n) - p.frequency
  {
    assert p.frequency * (n + 1) as real == p.frequency * n as real + p.frequency;
  }

  /** These are the scores that a draw compares. */
  lemma ShapedScores(p: Params, history: seq<int>, row: seq<Logit>, shaped: seq<Score>)
    requires p.repetition != 0.0 && IsShaped(p, history, row, shaped) && !Revived(p, history, row)
    ensures forall j: nat | j < |row| :: shaped[j] == ScoreOf(p, history, row, j)
  {
    forall j: nat | j < |row| ensures shaped[j] == ScoreOf(p, history, row, j) {
      ScoresAgree(p, history, row, shaped, j);
    }
  }

  // ---- the draw ----

  predicate AtLeast(a: Score, b: Score) { b.Minus? || (a.Num? && b.Num? && a.value >= b.value) }

  /** The best tokens by falling score: all of them, or as many as top-k says. */
  ghost predicate AreBest(p: Params, history: seq<int>, row: seq<Logit>, ids: seq<nat>)
    requires p.repetition != 0.0
  {
    && |ids| == (if p.topK == 0 || p.topK > |row| then |row| else p.topK)
    && (forall a | 0 <= a < |ids| :: ids[a] < |row|)
    && (forall a, b | 0 <= a < b < |ids| :: ids[a] != ids[b])
    && (forall a, b | 0 <= a < b < |ids| :: AtLeast(ScoreOf(p, history, row, ids[a]), ScoreOf(p, history, row, ids[b])))
    && (forall a, j: nat | 0 <= a < |ids| && j < |row| && j !in ids ::
          AtLeast(ScoreOf(p, history, row, ids[a]), ScoreOf(p, history, row, j)))
  }

  /** The sum of the first n numbers. */
  function SumTo(prob: seq<real>, n: nat): real
    requires n <= |prob|
  {
    if n == 0 then 0.0 else SumTo(prob, n - 1) + prob[n - 1]
  }

  /** exp of the distance of a score from the best one; zero for a masked token. */
  function Odds(exp: real -> real, best: Score, s: Score): real
    requires best.Num?
  {
    if s.Num? then exp(s.value - best.value) else 0.0
  }

  /** The odds of token j where the best one is m. */
  function OddsOf(p: Params, exp: real -> real, history: seq<int>, row: seq<Logit>, m: nat, j: nat): real
    requires p.repetition != 0.0 && m < |row| && j < |row| && ScoreOf(p, history, row, m).Num?
  {
    Odds(exp, ScoreOf(p, history, row, m), ScoreOf(p, history, row, j))
  }

  predicate CrossEqual(x: real, v: real, y: real, w: real) { x * v == y * w }

  /** Probabilities that sum to one, in the proportion of the odds. */
  ghost predicate InProportion(p: Params, exp: real -> real, history: seq<int>, row: seq<Logit>, ids: seq<nat>,
                               prob: seq<real>)
    requires p.repetition != 0.0 && AreBest(p, history, row, ids)
  {
    && |prob| == |ids| > 0 && ScoreOf(p, history, row, ids[0]).Num?
    && (forall a | 0 <= a < |prob| :: prob[a] >= 0.0) && SumTo(prob, |prob|) == 1.0
    && forall a, b | 0 <= a < |prob| && 0 <= b < |prob| ::
         CrossEqual(prob[a], OddsOf(p, exp, history, row, ids[0], ids[b]),
                    prob[b], OddsOf(p, exp, history, row, ids[0], ids[a]))
  }

  /** The fewest first ones that hold probability top-p; all of them for one and above. */
  ghost predicate HoldTopP(p: Params, prob: seq<real>, n: nat) {
    && 0 < n <= |prob|
    && (p.topP >= 1.0 ==> n == |prob|)
    && (p.topP < 1.0 ==> SumTo(prob, n) >= p.topP && forall m: nat | 0 < m < n :: SumTo(prob, m) < p.topP)
  }

  /** The share u of the first n falls on number i. */
  ghost predicate Hit(prob: seq<real>, n: nat, u: real, i: nat) {
    i < n <= |prob| && SumTo(prob, i) <= u * SumTo(prob, n) < SumTo(prob, i + 1)
  }

  /** How token t is drawn by number u. */
  ghost predicate DrawnBy(p: Params, exp: real -> real, history: seq<int>, row: seq<Logit>, u: real, t: int,
                          ids: seq<nat>, prob: seq<real>, n: nat, i: nat)
    requires p.repetition != 0.0
  {
    && AreBest(p, history, row, ids) && InProportion(p, exp, history, row, ids, prob)
    && HoldTopP(p, prob, n) && Hit(prob, n, u, i) && i < |ids| && t == ids[i]
  }

  ghost predicate DrawLaw(p: Params, exp: real -> real, history: seq<int>, row: seq<Logit>, u: real, t: int)
    requires p.repetition != 0.0
  {
    exists ids, prob, n: nat, i: nat :: DrawnBy(p, exp, history, row, u, t, ids, prob, n, i)
  }

  lemma {:induction false} SumToIs(prob: seq<real>, n: nat)
    requires n <= |prob|
    ensures SumTo(prob, n) == Upto(prob, n)
  {
    if n > 0 { SumToIs(prob, n - 1); }
  }

  function IdsOf(cand: seq<Candidate>): (ids: seq<nat>)
    ensures |ids| == |cand| && forall a | 0 <= a < |cand| :: ids[a] == cand[a].id
  {
    seq(|cand|, a requires 0 <= a < |cand| => cand[a].id)
  }

  predicate Has(cand: seq<Candidate>, j: nat) { exists x :: 0 <= x < |cand| && cand[x].id == j }

  /** A list of all tokens of a row, as long as the row, names none twice. */
  lemma ListsOnce(row: seq<Score>, cand: seq<Candidate>, a: nat, b: nat)
    requires Lists(row, cand) && a < b < |cand|
    ensures cand[a].id != cand[b].id
  {
    if cand[a].id == cand[b].id {
      var rest := cand[..b] + cand[b + 1..];
      forall j: nat | j < |row| ensures Has(rest, j) { StillListed(row, cand, a, b, j); }
      TooFew(rest, |row|);
    }
  }

  lemma StillListed(row: seq<Score>, cand: seq<Candidate>, a: nat, b: nat, j: nat)
    requires Lists(row, cand) && a < b < |cand| && cand[a].id == cand[b].id && j < |row|
    ensures Has(cand[..b] + cand[b + 1..], j)
  {
    var rest := cand[..b] + cand[b + 1..];
    var x :| 0 <= x < |cand| && cand[x] == Candidate(j, row[j]);
    var y := if x < b then x else if x == b then a else x - 1;
    assert rest[y].id == j;
  }

  /** m candidates name no more than m tokens. */
  lemma {:induction false} TooFew(cand: seq<Candidate>, n: nat)
    requires forall j: nat | j < n :: Has(cand, j)
    ensures n <= |cand|
    decreases n
  {
    if n > 0 {
      assert Has(cand, n - 1);
      var x :| 0 <= x < |cand| && cand[x].id == n - 1;
      var rest := cand[..x] + cand[x + 1..];
      forall j: nat | j < n - 1 ensures Has(rest, j) {
        assert Has(cand, j);
        var y :| 0 <= y < |cand| && cand[y].id == j;
        assert rest[if y < x then y else y - 1].id == j;
      }
      TooFew(rest, n - 1);
    }
  }

  lemma Unshaped(p: Params, history: seq<int>, row: seq<Logit>, shaped: seq<Score>)
    requires p.repetition != 0.0 && IsShaped(p, history, row, shaped) && !Revived(p, history, row)
    ensures Comparable(shaped) && forall j: nat | j < |row| :: !shaped[j].Plus?
  {
    ShapedScores(p, history, row, shaped);
  }

  /** A token that is not among the first k of a ranking is not above those. */
  lemma OutsideIsBelow(shaped: seq<Score>, cand: seq<Candidate>, k: nat, a: nat, j: nat)
    requires IsRanking(shaped, cand) && Comparable(shaped) && a < k <= |cand| && j < |shaped|
    requires j !in IdsOf(cand[..k])
    ensures NotAbove(shaped[j], shaped[cand[a].id])
  {
    var ids := IdsOf(cand[..k]);
    forall x | 0 <= x < k ensures cand[x].id != j { assert ids[x] in ids; }
    RankingKeepsLikeliest(shaped, cand, k, j);
  }

  /** The kept candidates of a ranking are the best tokens. */
  lemma KeptAreBest(p: Params, history: seq<int>, row: seq<Logit>, shaped: seq<Score>, cand: seq<Candidate>)
    requires p.repetition != 0.0 && RankedBy(p, history, row, shaped, cand) && !Revived(p, history, row) && row != []
    ensures AreBest(p, history, row, IdsOf(cand[..Kept(p, |row|)]))
  {
    var k := Kept(p, |row|);
    var ids := IdsOf(cand[..k]);
    ShapedScores(p, history, row, shaped);
    Unshaped(p, history, row, shaped);
    forall a, b | 0 <= a < b < k
      ensures ids[a] != ids[b] && AtLeast(ScoreOf(p, history, row, ids[a]), ScoreOf(p, history, row, ids[b]))
    {
      ListsOnce(shaped, cand, a, b);
      assert NotAbove(cand[b].score, cand[a].score);
    }
    forall a, j: nat | 0 <= a < k && j < |row| && j !in ids
      ensures AtLeast(ScoreOf(p, history, row, ids[a]), ScoreOf(p, history, row, j))
    {
      OutsideIsBelow(shaped, cand, k, a, j);
    }
  }

  lemma CrossRatio(x: real, y: real, s: real)
    requires s > 0.0
    ensures x / s * y == y / s * x
  {
    assert x / s * y == x * y / s == y / s * x;
  }

  lemma WeightIsOdds(exp: real -> real, best: Score, s: Score)
    requires best.Num? && (s.Num? || s.Minus?)
    ensures Weight(exp, best, s) == Num(Odds(exp, best, s))
  {}

  /** Two probabilities are in the proportion of their odds. */
  lemma PairInProportion(exp: real -> real, kept: seq<Candidate>, w: seq<real>, probs: seq<real>, a: nat, b: nat)
    requires Proper(kept) && IsSoftmax(exp, kept, w, probs) && a < |kept| && b < |kept|
    ensures CrossEqual(probs[a], Odds(exp, kept[0].score, kept[b].score),
                       probs[b], Odds(exp, kept[0].score, kept[a].score))
  {
    WeightIsOdds(exp, kept[0].score, kept[a].score);
    WeightIsOdds(exp, kept[0].score, kept[b].score);
    assert Num(w[a]) == Weight(exp, kept[0].score, kept[a].score);
    assert Num(w[b]) == Weight(exp, kept[0].score, kept[b].score);
    CrossRatio(w[a], w[b], Upto(w, |w|));
  }

  ghost predicate Listed(p: Params, history: seq<int>, row: seq<Logit>, kept: seq<Candidate>)
    requires p.repetition != 0.0
  {
    forall a | 0 <= a < |kept| :: kept[a].id < |row| && kept[a].score == ScoreOf(p, history, row, kept[a].id)
  }

  /** Softmax probabilities are in the proportion of the odds. */
  lemma SoftmaxInProportion(p: Params, exp: real -> real, history: seq<int>, row: seq<Logit>, kept: seq<Candidate>,
                            w: seq<real>, probs: seq<real>)
    requires p.repetition != 0.0 && AreBest(p, history, row, IdsOf(kept)) && ExpLike(exp) && Proper(kept)
    requires Listed(p, history, row, kept) && IsSoftmax(exp, kept, w, probs)
    ensures InProportion(p, exp, history, row, IdsOf(kept), probs)
  {
    var ids := IdsOf(kept);
    Distribution(exp, kept, w, probs);
    SumToIs(probs, |probs|);
    forall a, b | 0 <= a < |probs| && 0 <= b < |probs|
      ensures CrossEqual(probs[a], OddsOf(p, exp, history, row, ids[0], ids[b]),
                         probs[b], OddsOf(p, exp, history, row, ids[0], ids[a]))
    {
      PairInProportion(exp, kept, w, probs, a, b);
    }
  }

  lemma NucleusHolds(p: Params, prob: seq<real>, n: nat)
    requires IsNucleus(p, prob, n) && Weights(prob)
    ensures HoldTopP(p, prob, n)
  {
    SumToIs(prob, n);
    UptoGrows(prob, 0, n);
    forall m: nat | 0 < m < n ensures SumTo(prob, m) == Upto(prob, m) >= 0.0 {
      SumToIs(prob, m);
      UptoGrows(prob, 0, m);
    }
  }

  lemma FallIsHit(prob: seq<real>, n: nat, u: real, i: nat)
    requires n <= |prob| && FallsOn(prob, n, u, i)
    ensures Hit(prob, n, u, i)
  {
    SumToIs(prob, i);
    SumToIs(prob, i + 1);
    SumToIs(prob, n);
  }

  /** Without a revived token the kept candidates carry the scores, and the first is a number if some is unmasked. */
  lemma KeptAreListed(p: Params, history: seq<int>, row: seq<Logit>, shaped: seq<Score>, cand: seq<Candidate>)
    requires p.repetition != 0.0 && RankedBy(p, history, row, shaped, cand) && !Revived(p, history, row)
    requires HasUnmasked(row)
    ensures Listed(p, history, row, cand[..Kept(p, |row|)]) && Proper(cand[..Kept(p, |row|)])
  {
    ShapedScores(p, history, row, shaped);
    Unshaped(p, history, row, shaped);
    var j: nat :| j < |row| && row[j].Fin?;
    RankingStartsAtMax(shaped, cand);
    assert NotAbove(shaped[j], cand[0].score);
  }

  /**
   * Every draw from a row that keeps its masks obeys the law: the sampler compares logits after the
   * penalties divided by the temperature, keeps the best, and gives each its share of the nucleus.
   */
  lemma DrawKeepsLaw(p: Params, exp: real -> real, history: seq<int>, row: seq<Logit>, u: real, t: int)
    requires p.repetition != 0.0 && ExpLike(exp) && row != [] && DrawnFrom(p, exp, history, row, u, t)
    requires HasUnmasked(row) && !Revived(p, history, row)
    ensures DrawLaw(p, exp, history, row, u, t)
  {
    var shaped: seq<Score>, cand: seq<Candidate> :|
      RankedBy(p, history, row, shaped, cand) && Drawn(p, exp, cand[..Kept(p, |row|)], u, t);
    var kept := cand[..Kept(p, |row|)];
    KeptAreBest(p, history, row, shaped, cand);
    KeptAreListed(p, history, row, shaped, cand);
    var w, probs, n: nat, i: nat :| DrawnAt(p, exp, kept, w, probs, n, u, i) && t == kept[i].id;
    Distribution(exp, kept, w, probs);
    SoftmaxInProportion(p, exp, history, row, kept, w, probs);
    NucleusHolds(p, probs, n);
    FallIsHit(probs, n, u, i);
    assert DrawnBy(p, exp, history, row, u, t, IdsOf(kept), probs, n, i);
  }

  // ---- what a drawn token tells ----

  /** Where the scores of two kept tokens are apart by d, their logits after the penalties are apart by d times T. */
  lemma OddsAreTempered(p: Params, exp: real -> real, history: seq<int>, row: seq<Logit>, m: nat, j: nat)
    requires p.repetition != 0.0 && m < |row| && j < |row| && row[m].Fin? && row[j].Fin?
    ensures OddsOf(p, exp, history, row, m, j)
         == exp((PenaltyOn(p, row[j].value, Generated(history, j)) - PenaltyOn(p, row[m].value, Generated(history, m)))
                / Divisor(p))
  {
    var a, b := PenaltyOn(p, row[j].value, Generated(history, j)), PenaltyOn(p, row[m].value, Generated(history, m));
    Difference(a - b, b, Divisor(p));
  }

  /** Two kept tokens that were never generated: their probabilities are as exp of their logits over T. */
  lemma TemperatureDivides(p: Params, exp: real -> real, history: seq<int>, row: seq<Logit>, u: real, t: int,
                           ids: seq<nat>, prob: seq<real>, n: nat, i: nat, a: nat, b: nat)
    requires p.repetition != 0.0 && DrawnBy(p, exp, history, row, u, t, ids, prob, n, i)
    requires a < |ids| && b < |ids| && ids[a] !in history && ids[b] !in history
    requires row[ids[a]].Fin? && row[ids[b]].Fin?
    ensures row[ids[0]].Fin?
    ensures var m := PenaltyOn(p, row[ids[0]].value, Generated(history, ids[0]));
            CrossEqual(prob[a], exp((row[ids[b]].value - m) / Divisor(p)),
                       prob[b], exp((row[ids[a]].value - m) / Divisor(p)))
  {
    OddsAreTempered(p, exp, history, row, ids[0], ids[a]);
    OddsAreTempered(p, exp, history, row, ids[0], ids[b]);
    assert CrossEqual(prob[a], OddsOf(p, exp, history, row, ids[0], ids[b]),
                      prob[b], OddsOf(p, exp, history, row, ids[0], ids[a]));
  }

  predicate Beats(a: Score, b: Score) { !AtLeast(b, a) }

  ghost function Above(p: Params, history: seq<int>, row: seq<Logit>, t: nat): set<nat>
    requires p.repetition != 0.0 && t < |row|
  {
    set j: nat | j < |row| && Beats(ScoreOf(p, history, row, j), ScoreOf(p, history, row, t))
  }

  /** A token that scores above a kept one is kept before it. */
  lemma AboveIsBefore(p: Params, history: seq<int>, row: seq<Logit>, ids: seq<nat>, i: nat, j: nat)
    requires p.repetition != 0.0 && AreBest(p, history, row, ids) && i < |ids| && j in Above(p, history, row, ids[i])
    ensures j in ids[..i]
  {
    if j !in ids[..i] { NotBefore(p, history, row, ids, i, j); }
  }

  lemma NotBefore(p: Params, history: seq<int>, row: seq<Logit>, ids: seq<nat>, i: nat, j: nat)
    requires p.repetition != 0.0 && AreBest(p, history, row, ids) && i < |ids| && j !in ids[..i] && j < |row|
    ensures !Beats(ScoreOf(p, history, row, j), ScoreOf(p, history, row, ids[i]))
  {
    forall y | 0 <= y < i ensures ids[y] != j { assert ids[..i][y] in ids[..i]; }
    if j in ids {
      var x :| 0 <= x < |ids| && ids[x] == j;
    }
  }

  /** With top-k on, fewer than top-k tokens score above the one drawn. */
  lemma FewerThanTopK(p: Params, exp: real -> real, history: seq<int>, row: seq<Logit>, u: real, t: nat)
    requires p.repetition != 0.0 && p.topK > 0 && DrawLaw(p, exp, history, row, u, t)
    ensures t < |row| && |Above(p, history, row, t)| < p.topK
  {
    var ids, prob, n: nat, i: nat :| DrawnBy(p, exp, history, row, u, t, ids, prob, n, i);
    forall j | j in Above(p, history, row, t) ensures j in ids[..i] { AboveIsBefore(p, history, row, ids, i, j); }
    FewIn(Above(p, history, row, t), ids[..i]);
  }

  /** A set inside a list has no more members than the list. */
  lemma {:induction false} FewIn(s: set<nat>, ids: seq<nat>)
    requires forall j | j in s :: j in ids
    ensures |s| <= |ids|
  {
    if ids != [] {
      FewIn(s - {ids[0]}, ids[1..]);
    } else {
      assert s == {};
    }
  }
}
