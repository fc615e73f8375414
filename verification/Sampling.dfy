/**
 * The token sampler of the daemon (tools/sp_daemon/src/sampler.rs): suppression, the minimum and
 * maximum thought, the no-repeat-ngram guard, and the greedy or the drawn choice.
 */
module Sampling {
  import opened Common
  import DrawLaw
  import opened Logits
  import opened TokenDraw

  /** What stays fixed during one turn. */
  datatype Config = Config(
    params: Params, suppress: seq<int>, prefix: seq<int>, noRepeat: nat,
    close: Option<int>, thinkMin: nat, thinkMax: nat)

  /** At temperature zero and below the choice is greedy. */
  predicate Greedy(cfg: Config) { cfg.params.temperature <= 0.0 }

  /** The greedy choice uses no penalty; a draw keeps to every mask if the repetition penalty is positive. */
  predicate MasksHold(cfg: Config) { Greedy(cfg) || cfg.params.repetition > 0.0 }

  /** A draw with a negative repetition penalty, which the request may carry. */
  predicate Negative(cfg: Config) { !Greedy(cfg) && cfg.params.repetition < 0.0 }

  predicate InRow(id: int, len: nat) { 0 <= id < len }

  // ---- what the masks mean ----

  /** Token t follows, at position i, an earlier copy of the last n - 1 tokens. */
  predicate Follows(s: seq<int>, n: nat, i: nat, t: int)
    requires n >= 2
  {
    i + n <= |s| && s[i..i + (n - 1)] == s[|s| - (n - 1)..] && s[i + (n - 1)] == t
  }

  ghost predicate Repeats(s: seq<int>, n: nat, t: int)
    requires n >= 2
  {
    exists i: nat :: Follows(s, n, i, t)
  }

  predicate FloorOn(cfg: Config, history: seq<int>) { 0 < cfg.thinkMin && |history| < cfg.thinkMin }

  predicate BudgetSpent(cfg: Config, history: seq<int>, timeUp: bool) {
    (cfg.thinkMax > 0 && |history| >= cfg.thinkMax) || timeUp
  }

  predicate CeilingOn(cfg: Config, history: seq<int>, closed: bool, timeUp: bool, len: nat) {
    !closed && BudgetSpent(cfg, history, timeUp) && cfg.close.Some? && InRow(cfg.close.value, len)
  }

  /** Token i may not be chosen now. */
  ghost predicate Dead(cfg: Config, history: seq<int>, closed: bool, timeUp: bool, len: nat, i: int) {
    || i in cfg.suppress
    || (FloorOn(cfg, history) && cfg.close == Some(i))
    || (CeilingOn(cfg, history, closed, timeUp, len) && cfg.close != Some(i))
    || (cfg.noRepeat >= 2 && Repeats(cfg.prefix + history, cfg.noRepeat, i))
  }

  /** The row after masking: dead tokens at minus infinity, every other logit as it came. */
  ghost predicate MaskedTo(cfg: Config, history: seq<int>, closed: bool, timeUp: bool, row: seq<Logit>,
                           masked: seq<Logit>) {
    && |masked| == |row|
    && forall i | 0 <= i < |row| ::
         masked[i] == if Dead(cfg, history, closed, timeUp, |row|, i) then NegInf else row[i]
  }

  /**
   * `max_by` over (index, logit) keeps the later of two equal maxima, although the comment on
   * `argmax` says the first index wins.
   */
  method Argmax(row: array<Logit>) returns (r: int)
    ensures row.Length == 0 ==> r == 0
    ensures row.Length > 0 ==> IsLastMax(row[..], r)
  {
    r := 0;
    if row.Length == 0 { return; }
    for i := 1 to row.Length
      invariant 0 <= r < i
      invariant forall x | 0 <= x < i :: AtMost(row[x], row[r])
      invariant forall x | r < x < i :: !AtMost(row[r], row[x])
    {
      if AtMost(row[r], row[i]) { r := i; }
    }
  }

  /** Everything but `keep` to minus infinity. */
  method KeepOnly(row: array<Logit>, keep: nat)
    modifies row
    ensures forall i | 0 <= i < row.Length :: row[i] == if i != keep then NegInf else old(row[i])
  {
    for x := 0 to row.Length
      invariant forall i | 0 <= i < row.Length :: row[i] == if i != keep && i < x then NegInf else old(row[i])
    {
      if x != keep { row[x] := NegInf; }
    }
  }

  ghost predicate RepeatsBelow(s: seq<int>, n: nat, t: int, k: nat)
    requires n >= 2
  {
    exists i: nat :: i < k && Follows(s, n, i, t)
  }

  /** ban_repeat_ngram. */
  method BanRepeatNgram(row: array<Logit>, prefix: seq<int>, history: seq<int>, n: nat)
    requires n >= 2
    modifies row
    ensures forall j | 0 <= j < row.Length :: row[j] == if Repeats(prefix + history, n, j) then NegInf else old(row[j])
  {
    var s := prefix + history;
    var m := |s|;
    if m < n { return; }
    var suffix := s[m - (n - 1)..];
    var lastSrc := m - n;
    for i := 0 to lastSrc + 1
      invariant forall j | 0 <= j < row.Length :: row[j] == if RepeatsBelow(s, n, j, i) then NegInf else old(row[j])
    {
      var hit := s[i..i + (n - 1)] == suffix;
      var banned := s[i + (n - 1)];
      forall j | 0 <= j < row.Length
        ensures RepeatsBelow(s, n, j, i + 1) <==> RepeatsBelow(s, n, j, i) || (hit && banned == j)
      {
        OneMoreSource(s, n, j, i);
      }
      if hit && 0 <= banned < row.Length { row[banned] := NegInf; }
    }
    forall j | 0 <= j < row.Length ensures RepeatsBelow(s, n, j, lastSrc + 1) <==> Repeats(s, n, j) {
      AllSources(s, n, j);
    }
  }

  lemma OneMoreSource(s: seq<int>, n: nat, t: int, i: nat)
    requires n >= 2
    ensures RepeatsBelow(s, n, t, i + 1) <==> RepeatsBelow(s, n, t, i) || Follows(s, n, i, t)
  {}

  lemma AllSources(s: seq<int>, n: nat, t: int)
    requires 2 <= n <= |s|
    ensures RepeatsBelow(s, n, t, |s| - n + 1) <==> Repeats(s, n, t)
  {
    if Repeats(s, n, t) {
      var i: nat :| Follows(s, n, i, t);
      assert i < |s| - n + 1;
    }
  }

  class Sampler {
    const cfg: Config
    var history: seq<int>
    var thinkClosed: bool
    var thinkForced: bool

    constructor (c: Config)
      ensures cfg == c && history == [] && !thinkClosed && !thinkForced
    {
      cfg := c;
      history := [];
      thinkClosed := false;
      thinkForced := false;
    }

    /** The close flag says whether the close token has been generated this turn. */
    predicate Valid()
      reads this
    {
      thinkClosed <==> cfg.close.Some? && cfg.close.value in history
    }

    method Observe(token: int)
      requires Valid()
      modifies this`history, this`thinkClosed
      ensures Valid() && history == old(history) + [token]
      ensures thinkClosed == (old(thinkClosed) || cfg.close == Some(token))
    {
      if cfg.close.Some? && token == cfg.close.value { thinkClosed := true; }
      history := history + [token];
    }

    /**
     * The masks of `sample`, in place. `timeUp` is the reading of the wall-clock budget.
     * thinkForced records that the ceiling fired.
     */
    method Mask(row: array<Logit>, timeUp: bool)
      requires Valid()
      modifies row, this`thinkForced
      ensures MaskedTo(cfg, history, thinkClosed, timeUp, old(row[..]), row[..])
      ensures thinkForced == (old(thinkForced) || CeilingOn(cfg, history, thinkClosed, timeUp, row.Length))
    {
      Suppress(row, cfg.suppress);
      ghost var row1 := row[..];
      if FloorOn(cfg, history) && cfg.close.Some? && 0 <= cfg.close.value < row.Length {
        row[cfg.close.value] := NegInf;
      }
      ghost var row2 := row[..];
      if CeilingOn(cfg, history, thinkClosed, timeUp, row.Length) {
        KeepOnly(row, cfg.close.value);
        thinkForced := true;
      }
      ghost var row3 := row[..];
      if cfg.noRepeat >= 2 { BanRepeatNgram(row, cfg.prefix, history, cfg.noRepeat); }
      Together(cfg, history, thinkClosed, timeUp, old(row[..]), row1, row2, row3, row[..]);
    }

    /**
     * sample: mask the row, then the greedy choice, or at a positive temperature a draw by the number u,
     * which obeys the law of draws where the masks hold.
     */
    method Sample(row: array<Logit>, timeUp: bool, exp: real -> real, u: real)
      returns (t: int, ghost masked: seq<Logit>)
      requires Valid() && ExpLike(exp) && 0.0 <= u < 1.0
      modifies row, this`thinkForced
      ensures row.Length == 0 ==> t == 0
      ensures row.Length > 0 ==> MaskedTo(cfg, history, thinkClosed, timeUp, old(row[..]), masked)
      ensures row.Length > 0 ==> Chosen(cfg, exp, history, masked, u, t)
      ensures row.Length > 0 && cfg.params.temperature <= 0.0 ==> IsLastMax(masked, t)
      ensures row.Length > 0 && cfg.params.temperature > 0.0 && Unrevived(cfg, history, masked) ==>
                DrawLaw.DrawLaw(cfg.params, exp, history, masked, u, t)
      ensures thinkForced == (old(thinkForced) || CeilingOn(cfg, history, thinkClosed, timeUp, row.Length))
    {
      if row.Length == 0 { return 0, []; }
      Mask(row, timeUp);
      masked := row[..];
      if Greedy(cfg) { t := Argmax(row); return; }
      t := DrawToken(row, history, cfg.params, exp, u);
      if Unrevived(cfg, history, masked) {
        DrawLaw.DrawKeepsLaw(cfg.params, exp, history, masked, u, t);
      }
    }
  }

  /** Some token is unmasked, and no masked one comes back by its repetition penalty. */
  ghost predicate Unrevived(cfg: Config, history: seq<int>, masked: seq<Logit>) {
    cfg.params.repetition != 0.0 && HasUnmasked(masked) && !Revived(cfg.params, history, masked)
  }

  /** The token chosen from a masked row. */
  ghost predicate Chosen(cfg: Config, exp: real -> real, history: seq<int>, masked: seq<Logit>, u: real, t: int)
    requires masked != []
  {
    if Greedy(cfg) then IsLastMax(masked, t) else DrawnFrom(cfg.params, exp, history, masked, u, t)
  }

  lemma Together(cfg: Config, history: seq<int>, closed: bool, timeUp: bool,
                 row: seq<Logit>, row1: seq<Logit>, row2: seq<Logit>, row3: seq<Logit>, row4: seq<Logit>)
    requires |row| == |row1| == |row2| == |row3| == |row4|
    requires forall i | 0 <= i < |row| :: row1[i] == if i in cfg.suppress then NegInf else row[i]
    requires forall i | 0 <= i < |row| ::
               row2[i] == if FloorOn(cfg, history) && cfg.close == Some(i) then NegInf else row1[i]
    requires forall i | 0 <= i < |row| ::
               row3[i] == if CeilingOn(cfg, history, closed, timeUp, |row|) && cfg.close != Some(i)
                          then NegInf else row2[i]
    requires forall i | 0 <= i < |row| ::
               row4[i] == if cfg.noRepeat >= 2 && Repeats(cfg.prefix + history, cfg.noRepeat, i)
                          then NegInf else row3[i]
    ensures MaskedTo(cfg, history, closed, timeUp, row, row4)
  {}

  // ---- whole runs ----

  /** One turn of generation: the rows shown to the sampler, the clock readings and the tokens chosen. */
  datatype Turn = Turn(rows: seq<seq<Logit>>, late: seq<bool>, tokens: seq<int>)

  predicate Closed(cfg: Config, history: seq<int>) { cfg.close.Some? && cfg.close.value in history }

  /** Token t of the row is neither dead nor at minus infinity already. */
  ghost predicate IsLive(cfg: Config, history: seq<int>, timeUp: bool, row: seq<Logit>, t: int) {
    0 <= t < |row| && row[t].Fin? && !Dead(cfg, history, Closed(cfg, history), timeUp, |row|, t)
  }

  ghost predicate HasLive(cfg: Config, history: seq<int>, timeUp: bool, row: seq<Logit>) {
    exists t :: IsLive(cfg, history, timeUp, row, t)
  }

  /** A token of the row that may not be chosen was generated before, and the penalty lifts it again. */
  ghost predicate Revives(cfg: Config, history: seq<int>, timeUp: bool, row: seq<Logit>) {
    !MasksHold(cfg) && exists j :: j in history && 0 <= j < |row| && !IsLive(cfg, history, timeUp, row, j)
  }

  /**
   * What sample promises of its choice: it is live if some token is and none is revived, and below a
   * negative penalty it is a revived token if there is one.
   */
  ghost predicate KeepsMasks(cfg: Config, history: seq<int>, timeUp: bool, row: seq<Logit>, t: int) {
    && (row != [] ==> 0 <= t < |row|)
    && (HasLive(cfg, history, timeUp, row) && !Revives(cfg, history, timeUp, row) ==>
          IsLive(cfg, history, timeUp, row, t))
    && (Negative(cfg) && Revives(cfg, history, timeUp, row) ==>
          t in history && !IsLive(cfg, history, timeUp, row, t))
  }

  predicate Even(u: Turn) { |u.rows| == |u.late| == |u.tokens| }

  ghost predicate LiveChoice(cfg: Config, u: Turn, k: nat)
    requires Even(u) && k < |u.tokens|
  {
    IsLive(cfg, u.tokens[..k], u.late[k], u.rows[k], u.tokens[k])
  }

  ghost predicate LiveRow(cfg: Config, u: Turn, k: nat)
    requires Even(u) && k < |u.tokens|
  {
    HasLive(cfg, u.tokens[..k], u.late[k], u.rows[k])
  }

  ghost predicate RevivedRow(cfg: Config, u: Turn, k: nat)
    requires Even(u) && k < |u.tokens|
  {
    Revives(cfg, u.tokens[..k], u.late[k], u.rows[k])
  }

  ghost predicate KeptChoice(cfg: Config, u: Turn, k: nat)
    requires Even(u) && k < |u.tokens|
  {
    KeepsMasks(cfg, u.tokens[..k], u.late[k], u.rows[k], u.tokens[k])
  }

  /** A run of sample and observe. */
  ghost predicate SampledRun(cfg: Config, u: Turn) {
    Even(u) && forall k: nat | k < |u.tokens| :: KeptChoice(cfg, u, k)
  }

  /** A run in which no choice was masked. */
  ghost predicate LiveRun(cfg: Config, u: Turn) {
    Even(u) && forall k: nat | k < |u.tokens| :: LiveChoice(cfg, u, k)
  }

  /** A row that holds a live token and revives none. */
  ghost predicate SoundRow(cfg: Config, u: Turn, k: nat)
    requires Even(u) && k < |u.tokens|
  {
    LiveRow(cfg, u, k) && !RevivedRow(cfg, u, k)
  }

  /**
   * Of the sampled runs the live ones are those in which every row held a live token and revived none.
   * At penalty zero alone the second half is only sufficient.
   */
  lemma LiveRuns(cfg: Config, u: Turn)
    requires SampledRun(cfg, u)
    ensures (forall k: nat | k < |u.tokens| :: SoundRow(cfg, u, k)) ==> LiveRun(cfg, u)
    ensures MasksHold(cfg) || Negative(cfg) ==>
              (LiveRun(cfg, u) <==> forall k: nat | k < |u.tokens| :: SoundRow(cfg, u, k))
  {
    forall k: nat | k < |u.tokens|
      ensures SoundRow(cfg, u, k) ==> LiveChoice(cfg, u, k)
      ensures LiveChoice(cfg, u, k) && (MasksHold(cfg) || Negative(cfg)) ==> SoundRow(cfg, u, k)
    {
      assert KeptChoice(cfg, u, k);
    }
  }

  /** In the masked row the tokens at minus infinity are those that are not live. */
  lemma MaskedIsNotLive(cfg: Config, history: seq<int>, timeUp: bool, row: seq<Logit>, masked: seq<Logit>)
    requires MaskedTo(cfg, history, Closed(cfg, history), timeUp, row, masked)
    ensures forall j | 0 <= j < |row| :: masked[j].Fin? <==> IsLive(cfg, history, timeUp, row, j)
    ensures HasUnmasked(masked) <==> HasLive(cfg, history, timeUp, row)
    ensures !Greedy(cfg) ==> (Revived(cfg.params, history, masked) <==> Revives(cfg, history, timeUp, row))
  {
    forall j ensures Count(history, j) > 0 <==> j in history { CountedIsGenerated(history, j); }
    forall j | 0 <= j < |row| ensures masked[j].Fin? <==> IsLive(cfg, history, timeUp, row, j) {}
    if HasLive(cfg, history, timeUp, row) {
      var j :| IsLive(cfg, history, timeUp, row, j);
      assert masked[j].Fin?;
    }
    if !Greedy(cfg) && Revives(cfg, history, timeUp, row) {
      var j :| j in history && 0 <= j < |row| && !IsLive(cfg, history, timeUp, row, j);
      assert masked[j].NegInf?;
    }
  }

  lemma GreedyIsUnmasked(masked: seq<Logit>, t: int)
    requires IsLastMax(masked, t)
    ensures HasUnmasked(masked) ==> masked[t].Fin?
  {
    if HasUnmasked(masked) {
      var j :| 0 <= j < |masked| && masked[j].Fin?;
      assert AtMost(masked[j], masked[t]);
    }
  }

  /**
   * Greedy or drawn, at every penalty: a choice is live, if some token is, exactly when no token is
   * revived. At penalty zero alone the order of the candidates decides, and a revived token may come out.
   */
  lemma ChoiceIsLive(cfg: Config, exp: real -> real, history: seq<int>, timeUp: bool,
                     row: seq<Logit>, masked: seq<Logit>, u: real, t: int)
    requires ExpLike(exp) && row != []
    requires MaskedTo(cfg, history, Closed(cfg, history), timeUp, row, masked)
    requires Chosen(cfg, exp, history, masked, u, t)
    ensures KeepsMasks(cfg, history, timeUp, row, t)
    ensures HasLive(cfg, history, timeUp, row) && (MasksHold(cfg) || Negative(cfg)) ==>
              (IsLive(cfg, history, timeUp, row, t) <==> !Revives(cfg, history, timeUp, row))
  {
    MaskedIsNotLive(cfg, history, timeUp, row, masked);
    if Greedy(cfg) {
      GreedyIsUnmasked(masked, t);
    } else {
      DrawAvoidsMasks(cfg.params, exp, history, masked, u, t);
      CountedIsGenerated(history, t);
    }
  }

  /** The condition is exact at penalty zero too: some draw takes a revived token. */
  lemma ChoiceMayBeMasked(cfg: Config, exp: real -> real, history: seq<int>, timeUp: bool,
                          row: seq<Logit>, masked: seq<Logit>)
    requires ExpLike(exp) && MaskedTo(cfg, history, Closed(cfg, history), timeUp, row, masked)
    requires Revives(cfg, history, timeUp, row) && HasLive(cfg, history, timeUp, row)
    ensures masked != [] && exists u, t :: 0.0 <= u < 1.0 && Chosen(cfg, exp, history, masked, u, t)
                                           && !IsLive(cfg, history, timeUp, row, t)
  {
    MaskedIsNotLive(cfg, history, timeUp, row, masked);
    MasksHoldIff(cfg.params, exp, history, masked);
    var u, t :| 0.0 <= u < 1.0 && DrawnFrom(cfg.params, exp, history, masked, u, t)
                && !(0 <= t < |masked| && masked[t].Fin?);
    assert Chosen(cfg, exp, history, masked, u, t);
  }

  /** How many of the first k steps the ceiling masked. */
  function CeilingSteps(cfg: Config, u: Turn, k: nat): nat
    requires Even(u) && k <= |u.tokens|
  {
    if k == 0 then 0 else
      CeilingSteps(cfg, u, k - 1)
      + (if CeilingOn(cfg, u.tokens[..k - 1], Closed(cfg, u.tokens[..k - 1]), u.late[k - 1], |u.rows[k - 1]|)
         then 1 else 0)
  }

  lemma {:induction false} CeilingStepsExtend(cfg: Config, u: Turn, v: Turn, k: nat)
    requires Even(u) && Even(v) && k <= |u.tokens| <= |v.tokens|
    requires u.rows <= v.rows && u.late <= v.late && u.tokens <= v.tokens
    ensures CeilingSteps(cfg, u, k) == CeilingSteps(cfg, v, k)
  {
    if k > 0 {
      CeilingStepsExtend(cfg, u, v, k - 1);
      assert u.tokens[..k - 1] == v.tokens[..k - 1];
    }
  }

  function Push(u: Turn, row: seq<Logit>, late: bool, t: int): Turn {
    Turn(u.rows + [row], u.late + [late], u.tokens + [t])
  }

  /** A turn so far, with the number of its steps that the ceiling masked. */
  ghost predicate Recorded(cfg: Config, u: Turn, forced: nat) {
    SampledRun(cfg, u) && forced == CeilingSteps(cfg, u, |u.tokens|)
  }

  lemma PushRecorded(cfg: Config, u: Turn, forced: nat, row: seq<Logit>, late: bool, t: int)
    requires Recorded(cfg, u, forced) && KeepsMasks(cfg, u.tokens, late, row, t)
    ensures Recorded(cfg, Push(u, row, late, t),
                     forced + (if CeilingOn(cfg, u.tokens, Closed(cfg, u.tokens), late, |row|) then 1 else 0))
  {
    var v, k := Push(u, row, late, t), |u.tokens|;
    assert v.tokens[..k] == u.tokens;
    CeilingStepsExtend(cfg, u, v, k);
    forall x: nat | x < k ensures KeptChoice(cfg, v, x) {
      assert u.tokens[..x] == v.tokens[..x];
      assert KeptChoice(cfg, u, x);
    }
    assert KeptChoice(cfg, v, k);
  }

  /** One sample and one observe. */
  method Step(s: Sampler, given: seq<Logit>, late: bool, exp: real -> real, u: real) returns (t: int)
    requires s.Valid() && ExpLike(exp) && 0.0 <= u < 1.0
    modifies s
    ensures s.Valid() && s.history == old(s.history) + [t]
    ensures KeepsMasks(s.cfg, old(s.history), late, given, t)
    ensures s.thinkForced == (old(s.thinkForced)
                              || CeilingOn(s.cfg, old(s.history), Closed(s.cfg, old(s.history)), late, |given|))
  {
    var row := new Logit[|given|](i requires 0 <= i < |given| => given[i]);
    assert row[..] == given;
    ghost var masked;
    t, masked := s.Sample(row, late, exp, u);
    if row.Length > 0 { ChoiceIsLive(s.cfg, exp, s.history, late, given, masked, u, t); }
    s.Observe(t);
  }

  /** Generates one token per row, at any temperature and penalty; `forced` counts the steps the ceiling masked. */
  method Generate(s: Sampler, rows: seq<seq<Logit>>, late: seq<bool>, exp: real -> real, us: seq<real>)
    returns (u: Turn, ghost forced: nat)
    requires s.Valid() && s.history == [] && !s.thinkForced && |rows| == |late| == |us|
    requires ExpLike(exp) && forall k | 0 <= k < |us| :: 0.0 <= us[k] < 1.0
    modifies s
    ensures s.Valid() && s.history == u.tokens && u.rows == rows && u.late == late
    ensures Recorded(s.cfg, u, forced)
    ensures s.thinkForced <==> forced > 0
  {
    u, forced := Turn([], [], []), 0;
    for k := 0 to |rows|
      invariant s.Valid() && s.history == u.tokens && |u.tokens| == k && u.rows == rows[..k] && u.late == late[..k]
      invariant Recorded(s.cfg, u, forced)
      invariant s.thinkForced <==> forced > 0
    {
      ghost var history := s.history;
      var t := Step(s, rows[k], late[k], exp, us[k]);
      PushRecorded(s.cfg, u, forced, rows[k], late[k], t);
      if CeilingOn(s.cfg, history, Closed(s.cfg, history), late[k], |rows[k]|) { forced := forced + 1; }
      u := Push(u, rows[k], late[k], t);
      Prefixes(rows, late, k);
    }
    assert rows[..|rows|] == rows && late[..|rows|] == late;
  }

  lemma Prefixes(rows: seq<seq<Logit>>, late: seq<bool>, k: nat)
    requires k < |rows| == |late|
    ensures rows[..k + 1] == rows[..k] + [rows[k]] && late[..k + 1] == late[..k] + [late[k]]
  {}

  // ---- the no-repeat-ngram guard ----

  /** The guard bans exactly the tokens that would make the last n-gram an earlier one again. */
  lemma BanIsExact(s: seq<int>, n: nat, t: int)
    requires n >= 2
    ensures Repeats(s, n, t) <==> exists i: nat :: RepeatAt(s + [t], n, i, |s|)
  {
    if Repeats(s, n, t) {
      var i: nat :| Follows(s, n, i, t);
      FollowsIsRepeat(s, n, i, t);
      assert RepeatAt(s + [t], n, i, |s|);
    }
    if exists i: nat :: RepeatAt(s + [t], n, i, |s|) {
      var i: nat :| RepeatAt(s + [t], n, i, |s|);
      FollowsIsRepeat(s, n, i, t);
    }
  }

  /** The n-gram that ends at `end` also starts at i, ending earlier. */
  predicate RepeatAt(s: seq<int>, n: nat, i: nat, end: nat)
    requires n >= 2
  {
    i + n <= end < |s| && s[i..i + n] == s[end + 1 - n..end + 1]
  }

  lemma FollowsIsRepeat(s: seq<int>, n: nat, i: nat, t: int)
    requires n >= 2
    ensures Follows(s, n, i, t) <==> RepeatAt(s + [t], n, i, |s|)
  {
    if i + n <= |s| {
      var w, m := s + [t], |s|;
      var a, b := w[i..i + n], w[m + 1 - n..m + 1];
      assert a == s[i..i + (n - 1)] + [s[i + (n - 1)]];
      assert b == s[m - (n - 1)..] + [t];
      assert a[..n - 1] == s[i..i + (n - 1)] && a[n - 1] == s[i + (n - 1)];
      assert b[..n - 1] == s[m - (n - 1)..] && b[n - 1] == t;
    }
  }

  lemma RepeatInPrefix(s: seq<int>, x: seq<int>, n: nat, i: nat, end: nat)
    requires n >= 2 && end < |s|
    ensures RepeatAt(s + x, n, i, end) <==> RepeatAt(s, n, i, end)
  {
    if i + n <= end {
      assert (s + x)[i..i + n] == s[i..i + n];
      assert (s + x)[end + 1 - n..end + 1] == s[end + 1 - n..end + 1];
    }
  }

  /**
   * With the guard at n >= 2, no n-gram that ends at the choice from a sound row occurs earlier in the
   * prompt and the generated text together.
   */
  lemma NoNgramRepeats(cfg: Config, u: Turn, i: nat, k: nat)
    requires SampledRun(cfg, u) && cfg.noRepeat >= 2 && k < |u.tokens| && SoundRow(cfg, u, k)
    ensures !RepeatAt(cfg.prefix + u.tokens, cfg.noRepeat, i, |cfg.prefix| + k)
  {
    assert KeptChoice(cfg, u, k);
    assert LiveChoice(cfg, u, k);
    var s, t, rest := cfg.prefix + u.tokens[..k], u.tokens[k], u.tokens[k + 1..];
    assert cfg.prefix + u.tokens == s + [t] + rest;
    RepeatInPrefix(s + [t], rest, cfg.noRepeat, i, |s|);
    BanIsExact(s, cfg.noRepeat, t);
  }

  // ---- the masks in full ----

  predicate SameAt(s: seq<int>, p: int, q: int, x: nat) {
    0 <= p + x < |s| && 0 <= q + x < |s| && s[p + x] == s[q + x]
  }

  /** Token t, put after the sequence, makes its last n tokens the same as n earlier ones in a row. */
  predicate EndsTwice(s: seq<int>, n: nat, t: int, p: nat)
    requires n >= 2
  {
    p + n <= |s| && s[p + n - 1] == t && SameRun(s, p, |s| - (n - 1), n - 1)
  }

  predicate SameRun(s: seq<int>, p: int, q: int, len: nat) { forall x: nat | x < len :: SameAt(s, p, q, x) }

  /**
   * A masked row holds a token exactly as it came unless the token is suppressed; is the close token while
   * fewer tokens than the minimum are generated; is not the close token when the budget of tokens or time
   * is spent and no close token was generated; or would end the same n tokens again.
   */
  lemma MaskLaw(cfg: Config, history: seq<int>, timeUp: bool, row: seq<Logit>, masked: seq<Logit>, i: nat)
    requires MaskedTo(cfg, history, cfg.close.Some? && cfg.close.value in history, timeUp, row, masked) && i < |row|
    ensures var spent := (cfg.thinkMax > 0 && cfg.thinkMax <= |history|) || timeUp;
            var open := cfg.close.Some? && 0 <= cfg.close.value < |row| && cfg.close.value !in history;
            var n := cfg.noRepeat;
            masked[i] == if || i in cfg.suppress
                            || (cfg.close == Some(i) && |history| < cfg.thinkMin)
                            || (cfg.close != Some(i) && open && spent)
                            || (n >= 2 && exists p: nat :: EndsTwice(cfg.prefix + history, n, i, p))
                         then NegInf else row[i]
  {
    if cfg.noRepeat >= 2 {
      var s, n := cfg.prefix + history, cfg.noRepeat;
      forall p: nat ensures EndsTwice(s, n, i, p) <==> Follows(s, n, p, i) { TwiceIsFollows(s, n, i, p); }
    }
  }

  lemma TwiceIsFollows(s: seq<int>, n: nat, t: int, p: nat)
    requires n >= 2
    ensures EndsTwice(s, n, t, p) <==> Follows(s, n, p, t)
  {
    if p + n <= |s| {
      var q := |s| - (n - 1);
      var a, b := s[p..p + (n - 1)], s[q..];
      forall x: nat | x < n - 1 ensures SameAt(s, p, q, x) <==> a[x] == b[x] {}
      if EndsTwice(s, n, t, p) {
        forall x: nat | x < n - 1 ensures a[x] == b[x] { assert SameAt(s, p, q, x); }
        assert a == b;
      }
    }
  }

  // ---- the thought budgets ----

  /** Token budgets only, guard off, finite rows that offer the close token and another one. */
  ghost predicate BudgetTurn(cfg: Config, u: Turn, c: int) {
    && cfg.close == Some(c) && c !in cfg.suppress && cfg.noRepeat < 2
    && Even(u)
    && forall k: nat | k < |u.rows| :: !u.late[k] && OffersOther(cfg, u.rows[k], c)
  }

  ghost predicate OffersOther(cfg: Config, row: seq<Logit>, c: int) {
    && 0 <= c < |row|
    && (forall i | 0 <= i < |row| :: row[i].Fin?)
    && exists o :: 0 <= o < |row| && o != c && o !in cfg.suppress
  }

  /** A row keeps a live token exactly when floor and ceiling do not both act on it. */
  lemma RowSurvives(cfg: Config, history: seq<int>, timeUp: bool, row: seq<Logit>, c: int)
    requires cfg.close == Some(c) && c !in cfg.suppress && cfg.noRepeat < 2 && OffersOther(cfg, row, c)
    ensures HasLive(cfg, history, timeUp, row)
       <==> !(FloorOn(cfg, history) && CeilingOn(cfg, history, Closed(cfg, history), timeUp, |row|))
  {
    var o :| 0 <= o < |row| && o != c && o !in cfg.suppress;
    var pick := if FloorOn(cfg, history) then o else c;
    if !(FloorOn(cfg, history) && CeilingOn(cfg, history, Closed(cfg, history), timeUp, |row|)) {
      assert IsLive(cfg, history, timeUp, row, pick);
    }
  }

  /** The floor does not reach above the ceiling. */
  predicate InOrder(cfg: Config) { cfg.thinkMax == 0 || cfg.thinkMin <= cfg.thinkMax }

  /** The ceiling masks step k. */
  predicate CeilingAt(cfg: Config, u: Turn, k: nat)
    requires Even(u) && k < |u.tokens|
  {
    CeilingOn(cfg, u.tokens[..k], Closed(cfg, u.tokens[..k]), u.late[k], |u.rows[k]|)
  }

  /** With token budgets the ceiling masks the steps from the maximum on until the close token came. */
  lemma CeilingAtIff(cfg: Config, u: Turn, c: int, k: nat)
    requires BudgetTurn(cfg, u, c) && k < |u.tokens|
    ensures CeilingAt(cfg, u, k) <==> 0 < cfg.thinkMax <= k && c !in u.tokens[..k]
  {
    assert OffersOther(cfg, u.rows[k], c);
  }

  /** Where the ceiling rests and the choices so far are live, the row is sound at every penalty. */
  lemma RestingRowIsSound(cfg: Config, u: Turn, c: int, k: nat)
    requires BudgetTurn(cfg, u, c) && k < |u.tokens| && !CeilingAt(cfg, u, k)
    requires forall x: nat | x < k :: LiveChoice(cfg, u, x)
    ensures SoundRow(cfg, u, k)
  {
    var h := u.tokens[..k];
    assert OffersOther(cfg, u.rows[k], c);
    RowSurvives(cfg, h, u.late[k], u.rows[k], c);
    forall j | j in h && 0 <= j < |u.rows[k]| ensures IsLive(cfg, h, u.late[k], u.rows[k], j) {
      var x: nat :| x < |h| && h[x] == j;
      assert LiveChoice(cfg, u, x);
    }
  }

  /** A row on which the ceiling acts is sound only where every mask holds and the floor is off. */
  lemma CeilingRowIsSound(cfg: Config, u: Turn, c: int, k: nat)
    requires BudgetTurn(cfg, u, c) && k < |u.tokens| && MasksHold(cfg)
    ensures SoundRow(cfg, u, k) <==> !(FloorOn(cfg, u.tokens[..k]) && CeilingAt(cfg, u, k))
  {
    assert OffersOther(cfg, u.rows[k], c);
    RowSurvives(cfg, u.tokens[..k], u.late[k], u.rows[k], c);
  }

  /** A run stays live at every penalty as long as the ceiling rests. */
  lemma {:induction false} RestingRunIsLive(cfg: Config, u: Turn, c: int, n: nat)
    requires BudgetTurn(cfg, u, c) && SampledRun(cfg, u) && n <= |u.tokens|
    requires forall k: nat | k < n :: !CeilingAt(cfg, u, k)
    ensures forall k: nat | k < n :: LiveChoice(cfg, u, k)
  {
    if n > 0 {
      RestingRunIsLive(cfg, u, c, n - 1);
      RestingRowIsSound(cfg, u, c, n - 1);
      assert KeptChoice(cfg, u, n - 1);
    }
  }

  /** All rows have one length, that of the vocabulary. */
  predicate OneLength(u: Turn) { forall j, k | 0 <= j < k < |u.rows| :: |u.rows[j]| == |u.rows[k]| }

  /** When the ceiling acts below a negative penalty, the token drawn was generated before and does not close. */
  lemma CeilingRevives(cfg: Config, u: Turn, c: int, k: nat)
    requires BudgetTurn(cfg, u, c) && SampledRun(cfg, u) && OneLength(u) && Negative(cfg)
    requires k < |u.tokens| && CeilingAt(cfg, u, k)
    ensures u.tokens[k] in u.tokens[..k] && u.tokens[k] != c && !LiveChoice(cfg, u, k)
  {
    CeilingAtIff(cfg, u, c, k);
    assert KeptChoice(cfg, u, 0) && KeptChoice(cfg, u, k);
    assert OffersOther(cfg, u.rows[0], c) && OffersOther(cfg, u.rows[k], c);
    var j := u.tokens[0];
    assert u.tokens[..k][0] == j;
    assert !IsLive(cfg, u.tokens[..k], u.late[k], u.rows[k], j);
  }

  /** The close token came before the ceiling could act, or the run is too short for it. */
  predicate NeedsNoCeiling(cfg: Config, u: Turn, c: int) {
    cfg.thinkMax == 0 || |u.tokens| <= cfg.thinkMax || c in u.tokens[..cfg.thinkMax]
  }

  lemma CeilingRests(cfg: Config, u: Turn, c: int)
    requires BudgetTurn(cfg, u, c)
    ensures NeedsNoCeiling(cfg, u, c) <==> forall k: nat | k < |u.tokens| :: !CeilingAt(cfg, u, k)
  {
    forall k: nat | k < |u.tokens| ensures CeilingAt(cfg, u, k) <==> 0 < cfg.thinkMax <= k && c !in u.tokens[..k] {
      CeilingAtIff(cfg, u, c, k);
    }
    if NeedsNoCeiling(cfg, u, c) {
      forall k: nat | k < |u.tokens| && cfg.thinkMax <= k ensures u.tokens[..cfg.thinkMax] <= u.tokens[..k] {}
      forall k: nat | k < |u.tokens| ensures !CeilingAt(cfg, u, k) {
        if 0 < cfg.thinkMax <= k { InLonger(u.tokens, c, cfg.thinkMax, k); }
      }
    } else {
      assert CeilingAt(cfg, u, cfg.thinkMax);
    }
  }

  lemma InLonger(s: seq<int>, c: int, m: nat, n: nat)
    requires m <= n <= |s| && c in s[..m]
    ensures c in s[..n]
  {
    var x :| 0 <= x < m && s[..m][x] == c;
    assert s[..n][x] == c;
  }

  /**
   * At every penalty a run that needs no ceiling stays live. Where the masks hold, a run stays live
   * exactly when the budgets are in order or it ends before the ceiling, because a floor above the
   * ceiling masks every token of the row that the ceiling reaches. Below a negative penalty it stays
   * live exactly when it needs no ceiling, which would revive the tokens generated so far.
   */
  lemma BudgetsLeaveAToken(cfg: Config, u: Turn, c: int)
    requires BudgetTurn(cfg, u, c) && SampledRun(cfg, u)
    ensures NeedsNoCeiling(cfg, u, c) ==> LiveRun(cfg, u)
    ensures MasksHold(cfg) ==> (LiveRun(cfg, u) <==> InOrder(cfg) || |u.tokens| <= cfg.thinkMax)
    ensures Negative(cfg) && OneLength(u) ==> (LiveRun(cfg, u) <==> NeedsNoCeiling(cfg, u, c))
  {
    CeilingRests(cfg, u, c);
    if NeedsNoCeiling(cfg, u, c) { RestingRunIsLive(cfg, u, c, |u.tokens|); }
    if MasksHold(cfg) { OrderedRunIsLive(cfg, u, c); }
    if Negative(cfg) && OneLength(u) && !NeedsNoCeiling(cfg, u, c) {
      CeilingAtIff(cfg, u, c, cfg.thinkMax);
      CeilingRevives(cfg, u, c, cfg.thinkMax);
    }
  }

  lemma OrderedRunIsLive(cfg: Config, u: Turn, c: int)
    requires BudgetTurn(cfg, u, c) && SampledRun(cfg, u) && MasksHold(cfg)
    ensures LiveRun(cfg, u) <==> InOrder(cfg) || |u.tokens| <= cfg.thinkMax
  {
    if InOrder(cfg) || |u.tokens| <= cfg.thinkMax {
      LiveRuns(cfg, u);
      forall k: nat | k < |u.tokens| ensures SoundRow(cfg, u, k) {
        CeilingAtIff(cfg, u, c, k);
        CeilingRowIsSound(cfg, u, c, k);
      }
    } else if LiveRun(cfg, u) {
      forall k: nat | k < |u.rows| ensures InRow(c, |u.rows[k]|) {
        assert OffersOther(cfg, u.rows[k], c);
      }
      CrossedBudgets(cfg, u, c);
    }
  }

  /** No close token is live below the floor. */
  lemma NoCloseBelowFloor(cfg: Config, u: Turn, c: int, k: nat)
    requires LiveRun(cfg, u) && cfg.close == Some(c) && k <= |u.tokens| && k <= cfg.thinkMin
    ensures c !in u.tokens[..k]
  {
    forall x: nat | x < k ensures u.tokens[x] != c {
      assert LiveChoice(cfg, u, x);
    }
  }

  /** With the floor above the ceiling no live run passes the ceiling, whatever guard, clock and suppression do. */
  lemma CrossedBudgets(cfg: Config, u: Turn, c: int)
    requires LiveRun(cfg, u) && cfg.close == Some(c) && 0 < cfg.thinkMax < cfg.thinkMin
    requires forall k: nat | k < |u.rows| :: InRow(c, |u.rows[k]|)
    ensures |u.tokens| <= cfg.thinkMax
  {
    if |u.tokens| > cfg.thinkMax {
      NoCloseBelowFloor(cfg, u, c, cfg.thinkMax);
      MaskedAway(cfg, u.tokens[..cfg.thinkMax], u.late[cfg.thinkMax], u.rows[cfg.thinkMax], u.tokens[cfg.thinkMax]);
      LiveAt(cfg, u, cfg.thinkMax);
    }
  }

  lemma LiveAt(cfg: Config, u: Turn, k: nat)
    requires LiveRun(cfg, u) && k < |u.tokens|
    ensures IsLive(cfg, u.tokens[..k], u.late[k], u.rows[k], u.tokens[k])
  {
    assert LiveChoice(cfg, u, k);
  }

  /** No token is live in a row on which floor and ceiling both act. */
  lemma MaskedAway(cfg: Config, history: seq<int>, timeUp: bool, row: seq<Logit>, t: int)
    requires FloorOn(cfg, history) && CeilingOn(cfg, history, Closed(cfg, history), timeUp, |row|)
    ensures !IsLive(cfg, history, timeUp, row, t)
  {}

  /** The smallest crossing: ceiling 1, floor 2. The second row is masked away and its last id comes out. */
  lemma CrossedExample(l: real, params: Params, masked: seq<Logit>, t: int)
    requires MaskedTo(Config(params, [], [], 0, Some(0), 2, 1), [1], false, false, [Fin(l), Fin(l)], masked)
    requires IsLastMax(masked, t)
    ensures masked == [NegInf, NegInf] && t == 1
  {
    assert |masked| == 2 && masked[0] == NegInf && masked[1] == NegInf;
    assert AtMost(masked[0], masked[1]);
  }

  /**
   * The first close token of a run longer than the ceiling lies between floor and ceiling if the masks
   * hold. Otherwise it does exactly when it came before the ceiling could act; see NegativeNeverCloses.
   */
  lemma CloseIsInWindow(cfg: Config, u: Turn, c: int) returns (first: nat)
    requires BudgetTurn(cfg, u, c) && SampledRun(cfg, u)
    requires cfg.thinkMin <= cfg.thinkMax && 0 < cfg.thinkMax < |u.tokens|
    requires MasksHold(cfg) || c in u.tokens[..cfg.thinkMax]
    ensures cfg.thinkMin <= first <= cfg.thinkMax && u.tokens[first] == c
    ensures forall k | 0 <= k < first :: u.tokens[k] != c
  {
    if c in u.tokens[..cfg.thinkMax] {
      CeilingRests(cfg, u, c);
      RestingRunIsLive(cfg, u, c, |u.tokens|);
    } else {
      BudgetsLeaveAToken(cfg, u, c);
    }
    first := 0;
    while u.tokens[first] != c
      invariant first <= cfg.thinkMax
      invariant forall k | 0 <= k < first :: u.tokens[k] != c
      decreases cfg.thinkMax - first
    {
      if first == cfg.thinkMax { AtTheCeiling(cfg, u, c); }
      first := first + 1;
    }
    assert LiveChoice(cfg, u, first);
  }

  /**
   * Below a negative penalty a run that did not close before the ceiling never closes: from the ceiling
   * on it draws tokens of its first thinkMax ones again and again.
   */
  lemma {:induction false} NegativeNeverCloses(cfg: Config, u: Turn, c: int, k: nat)
    requires BudgetTurn(cfg, u, c) && SampledRun(cfg, u) && OneLength(u) && Negative(cfg)
    requires 0 < cfg.thinkMax <= k <= |u.tokens| && c !in u.tokens[..cfg.thinkMax]
    ensures forall x | cfg.thinkMax <= x < k :: u.tokens[x] in u.tokens[..cfg.thinkMax]
    ensures c !in u.tokens[..k]
    ensures CeilingSteps(cfg, u, k) == k - cfg.thinkMax
  {
    if k == cfg.thinkMax {
      RestingSteps(cfg, u, c, k);
    } else {
      NegativeNeverCloses(cfg, u, c, k - 1);
      CeilingAtIff(cfg, u, c, k - 1);
      CeilingRevives(cfg, u, c, k - 1);
      FromTheFirst(u.tokens, cfg.thinkMax, k - 1);
      assert u.tokens[..k] == u.tokens[..k - 1] + [u.tokens[k - 1]];
    }
  }

  /** A token that repeats one of the first n, when all of these from m on repeat the first m. */
  lemma FromTheFirst(s: seq<int>, m: nat, n: nat)
    requires m <= n < |s| && s[n] in s[..n] && forall x | m <= x < n :: s[x] in s[..m]
    ensures s[n] in s[..m]
  {
    var x: nat :| x < n && s[..n][x] == s[n];
    if x < m { assert s[..m][x] == s[n]; }
  }

  lemma {:induction false} RestingSteps(cfg: Config, u: Turn, c: int, k: nat)
    requires BudgetTurn(cfg, u, c) && k <= |u.tokens| && forall x: nat | x < k :: !CeilingAt(cfg, u, x)
    ensures CeilingSteps(cfg, u, k) == 0
  {
    if k > 0 { RestingSteps(cfg, u, c, k - 1); assert !CeilingAt(cfg, u, k - 1); }
  }

  lemma AtTheCeiling(cfg: Config, u: Turn, c: int)
    requires BudgetTurn(cfg, u, c) && LiveRun(cfg, u) && 0 < cfg.thinkMax < |u.tokens|
    requires c !in u.tokens[..cfg.thinkMax]
    ensures u.tokens[cfg.thinkMax] == c
  {
    var k := cfg.thinkMax;
    assert LiveChoice(cfg, u, k);
    assert OffersOther(cfg, u.rows[k], c);
  }

  /**
   * The ceiling masks the logits of at most one step of a run whose masks hold and whose budgets are in
   * order. Below a negative penalty it masks no step or every one from the maximum on.
   */
  lemma CeilingFiresOnce(cfg: Config, u: Turn, c: int)
    requires BudgetTurn(cfg, u, c) && SampledRun(cfg, u)
    ensures MasksHold(cfg) && InOrder(cfg) ==> CeilingSteps(cfg, u, |u.tokens|) <= 1
    ensures Negative(cfg) && OneLength(u) ==>
              CeilingSteps(cfg, u, |u.tokens|) == if NeedsNoCeiling(cfg, u, c) then 0 else |u.tokens| - cfg.thinkMax
  {
    CeilingRests(cfg, u, c);
    if NeedsNoCeiling(cfg, u, c) {
      RestingSteps(cfg, u, c, |u.tokens|);
    } else if MasksHold(cfg) && InOrder(cfg) {
      BudgetsLeaveAToken(cfg, u, c);
      CeilingFiresBy(cfg, u, c, |u.tokens|);
    } else if Negative(cfg) && OneLength(u) {
      NegativeNeverCloses(cfg, u, c, |u.tokens|);
    }
  }

  lemma {:induction false} CeilingFiresBy(cfg: Config, u: Turn, c: int, k: nat)
    requires BudgetTurn(cfg, u, c) && LiveRun(cfg, u) && k <= |u.tokens|
    ensures CeilingSteps(cfg, u, k) <= 1
    ensures c !in u.tokens[..k] ==> CeilingSteps(cfg, u, k) == 0
  {
    if k > 0 {
      CeilingFiresBy(cfg, u, c, k - 1);
      var h := u.tokens[..k - 1];
      assert u.tokens[..k] == h + [u.tokens[k - 1]];
      assert LiveChoice(cfg, u, k - 1);
      assert OffersOther(cfg, u.rows[k - 1], c);
    }
  }

  // ---- the smallest failures of a negative penalty ----

  /** Masks that leave one of two tokens, the other of which was generated: the other one comes out. */
  lemma TwoTokens(cfg: Config, exp: real -> real, history: seq<int>, l: real, masked: seq<Logit>, u: real, t: int)
    requires ExpLike(exp) && Negative(cfg) && 1 in history
    requires IsLive(cfg, history, false, [Fin(l), Fin(l)], 0) && !IsLive(cfg, history, false, [Fin(l), Fin(l)], 1)
    requires MaskedTo(cfg, history, Closed(cfg, history), false, [Fin(l), Fin(l)], masked)
    requires masked != [] && Chosen(cfg, exp, history, masked, u, t)
    ensures masked == [Fin(l), NegInf] && t == 1
  {
    var row := [Fin(l), Fin(l)];
    MaskedIsNotLive(cfg, history, false, row, masked);
    assert masked[0] == row[0];
    assert row[1].Fin?;
    ChoiceIsLive(cfg, exp, history, false, row, masked, u, t);
  }

  /** At the ceiling: after one token other than the close token, that token comes again. */
  lemma CeilingExample(params: Params, exp: real -> real, l: real, masked: seq<Logit>, u: real, t: int)
    requires ExpLike(exp) && params.temperature > 0.0 && params.repetition < 0.0
    requires MaskedTo(Config(params, [], [], 0, Some(0), 0, 1), [1], false, false, [Fin(l), Fin(l)], masked)
    requires masked != [] && Chosen(Config(params, [], [], 0, Some(0), 0, 1), exp, [1], masked, u, t)
    ensures masked == [Fin(l), NegInf] && t == 1
  {
    TwoTokens(Config(params, [], [], 0, Some(0), 0, 1), exp, [1], l, masked, u, t);
  }

  /** Under the guard for pairs: after the same token twice it comes a third time. */
  lemma GuardExample(params: Params, exp: real -> real, l: real, masked: seq<Logit>, u: real, t: int)
    requires ExpLike(exp) && params.temperature > 0.0 && params.repetition < 0.0
    requires MaskedTo(Config(params, [], [], 2, None, 0, 0), [1, 1], false, false, [Fin(l), Fin(l)], masked)
    requires masked != [] && Chosen(Config(params, [], [], 2, None, 0, 0), exp, [1, 1], masked, u, t)
    ensures masked == [Fin(l), NegInf] && t == 1
    ensures RepeatAt([1, 1, t], 2, 0, 2)
  {
    var s: seq<int> := [1, 1];
    assert [] + s == s;
    assert s[0..1] == [1] && s[1..] == [1];
    assert Follows(s, 2, 0, 1);
    assert forall i: nat :: !Follows(s, 2, i, 0);
    TwoTokens(Config(params, [], [], 2, None, 0, 0), exp, s, l, masked, u, t);
    assert [1, 1, t][0..2] == [1, 1, t][1..3];
  }
}
