/**
 * The draft and verify loop of speculative decoding (tools/sp_daemon/src/eagle_accept.rs). The
 * target is a function of the token prefix, the key-value session is that prefix, and the draft
 * and the failures of the engine are arbitrary.
 */
module Eagle {
  import opened Common
  import opened Logits

  /** The target engine: a row of logits for every prefix, and the ids whose logits are suppressed. */
  datatype Target = Target(logits: seq<int> -> seq<Logit>, vocab: nat, suppress: seq<int>)

  ghost predicate GoodTarget(t: Target) {
    t.vocab > 0 && forall ctx :: |t.logits(ctx)| == t.vocab
  }

  // ---- the target's own greedy continuation ----

  /** The index kept after the first n logits: it moves only to a strictly greater one. */
  function Best(row: seq<Logit>, n: nat): (b: nat)
    requires 0 < n <= |row|
    ensures b < n
  {
    if n == 1 then 0 else
      var b := Best(row, n - 1);
      if AtMost(row[n - 1], row[b]) then b else n - 1
  }

  /** Of equal maxima this `argmax` returns the first, unlike the sampler's. */
  lemma {:induction false} BestIsFirstMax(row: seq<Logit>, n: nat)
    requires 0 < n <= |row|
    ensures IsFirstMax(row[..n], Best(row, n))
  {
    if n > 1 {
      BestIsFirstMax(row, n - 1);
      var b := Best(row, n - 1);
      forall i | 0 <= i < n - 1 ensures AtMost(row[i], row[b]) {
        assert row[..n - 1][i] == row[i];
      }
      forall i | 0 <= i < b ensures !AtMost(row[b], row[i]) {
        assert row[..n - 1][i] == row[i];
      }
    }
  }

  function Suppressed(row: seq<Logit>, ids: seq<int>): (r: seq<Logit>)
    ensures |r| == |row|
  {
    seq(|row|, i requires 0 <= i < |row| => if i in ids then NegInf else row[i])
  }

  /** The target's token after `ctx`. */
  function Choice(t: Target, ctx: seq<int>): int {
    var row := Suppressed(t.logits(ctx), t.suppress);
    if row == [] then 0 else Best(row, |row|)
  }

  /** The first n tokens of the target's greedy continuation of `ctx`. */
  function Greedy(t: Target, ctx: seq<int>, n: nat): (r: seq<int>)
    ensures |r| == n
  {
    if n == 0 then [] else
      var r := Greedy(t, ctx, n - 1);
      r + [Choice(t, ctx + r)]
  }

  // ---- what greedy means ----

  /** The logit of token i with the suppressed ones at minus infinity. */
  function Level(t: Target, row: seq<Logit>, i: nat): Logit
    requires i < |row|
  {
    if i in t.suppress then NegInf else row[i]
  }

  /** After ctx the target puts c above every smaller id and no lower than any other. */
  ghost predicate IsNext(t: Target, ctx: seq<int>, c: int) {
    var row := t.logits(ctx);
    && 0 <= c < |row|
    && (forall i | 0 <= i < |row| :: AtMost(Level(t, row, i), Level(t, row, c)))
    && (forall i | 0 <= i < c :: !AtMost(Level(t, row, c), Level(t, row, i)))
  }

  lemma ChoiceIsNext(t: Target, ctx: seq<int>, c: int)
    requires GoodTarget(t)
    ensures IsNext(t, ctx, c) <==> c == Choice(t, ctx)
  {
    var row := t.logits(ctx);
    var low := Suppressed(row, t.suppress);
    BestIsFirstMax(low, |low|);
    assert low[..|low|] == low && |row| == t.vocab;
    forall i: nat | i < |row| ensures low[i] == Level(t, row, i) {}
    if IsNext(t, ctx, c) { FirstMaxIsUnique(low, c, Choice(t, ctx)); }
  }

  lemma FirstMaxIsUnique(row: seq<Logit>, a: int, b: int)
    requires IsFirstMax(row, a) && IsFirstMax(row, b)
    ensures a == b
  {
    assert AtMost(row[a], row[b]) && AtMost(row[b], row[a]);
  }

  /** Every token is the target's next one after the prompt and those before it, and none ends the text. */
  ghost predicate FollowsTarget(t: Target, prompt: seq<int>, eos: set<int>, tokens: seq<int>) {
    forall i | 0 <= i < |tokens| :: tokens[i] !in eos && IsNext(t, prompt + tokens[..i], tokens[i])
  }

  /** The target's next token ends the text. */
  ghost predicate EndsHere(t: Target, ctx: seq<int>, eos: set<int>) { exists c :: c in eos && IsNext(t, ctx, c) }

  // ---- the engine ----

  class Session {
    const target: Target
    const fails: nat -> bool
    var ctx: seq<int>
    var calls: nat

    constructor (t: Target, f: nat -> bool)
      requires GoodTarget(t)
      ensures target == t && ctx == []
    {
      target := t;
      fails := f;
      ctx := [];
      calls := 0;
    }

    /** gemma4_kv_prefill: appends tokens without returning logits. */
    method Prefill(tokens: seq<int>) returns (ok: bool)
      modifies this
      ensures ok ==> ctx == old(ctx) + tokens
    {
      ok := !fails(calls);
      calls := calls + 1;
      if ok { ctx := ctx + tokens; }
    }

    /** gemma4_kv_decode_logits: appends one token and returns the row for the next position. */
    method DecodeLogits(token: int) returns (ok: bool, row: array<Logit>)
      modifies this
      ensures fresh(row)
      ensures ok ==> ctx == old(ctx) + [token] && row[..] == target.logits(ctx)
    {
      ok := !fails(calls);
      calls := calls + 1;
      if ok { ctx := ctx + [token]; }
      var l := target.logits(ctx);
      row := new Logit[|l|](i requires 0 <= i < |l| => l[i]);
    }
  }

  method Argmax(v: array<Logit>) returns (bi: nat)
    requires v.Length > 0
    ensures bi == Best(v[..], v.Length)
  {
    bi := 0;
    for i := 1 to v.Length
      invariant bi == Best(v[..], i)
    {
      if !AtMost(v[i], v[bi]) { bi := i; }
    }
  }

  /** Decode one token, suppress, take the greedy next one; None when the engine fails. */
  method Advance(s: Session, token: int) returns (g: Option<int>)
    requires GoodTarget(s.target)
    modifies s
    ensures g.Some? ==> s.ctx == old(s.ctx) + [token] && g.value == Choice(s.target, s.ctx)
  {
    var ok, row := s.DecodeLogits(token);
    if !ok { return None; }
    ghost var was := row[..];
    Suppress(row, s.target.suppress);
    assert row[..] == Suppressed(was, s.target.suppress);
    assert |was| == s.target.vocab;
    var b := Argmax(row);
    g := Some(b);
  }

  // ---- the loop ----

  /** What one run hands back; `stopped` when a decode failed after the loop had begun. */
  datatype Report = Report(tokens: seq<int>, acceptLens: seq<nat>, singleHit: nat, singleN: nat, stopped: bool)

  datatype EagleError = PromptTooShort | PrefillFailed | PrimeFailed | DraftFailed

  /** Tokens committed by rounds that accepted these many drafts. */
  function Committed(acceptLens: seq<nat>): nat {
    if acceptLens == [] then 0 else Committed(acceptLens[..|acceptLens| - 1]) + Max(1, acceptLens[|acceptLens| - 1])
  }

  /** The emitted tokens are greedy and none of them ends the text. */
  ghost predicate Faithful(t: Target, prompt: seq<int>, eos: set<int>, tokens: seq<int>) {
    tokens == Greedy(t, prompt, |tokens|) && forall i | 0 <= i < |tokens| :: tokens[i] !in eos
  }

  lemma {:induction false} GreedyFollows(t: Target, prompt: seq<int>, eos: set<int>, tokens: seq<int>)
    requires GoodTarget(t)
    ensures Faithful(t, prompt, eos, tokens) <==> FollowsTarget(t, prompt, eos, tokens)
    decreases |tokens|
  {
    if tokens == [] {
    } else {
      var k := |tokens| - 1;
      var first, c := tokens[..k], tokens[k];
      GreedyFollows(t, prompt, eos, first);
      ChoiceIsNext(t, prompt + first, c);
      assert tokens == first + [c];
      forall i | 0 <= i < k ensures tokens[..i] == first[..i] && tokens[i] == first[i] {}
      assert Faithful(t, prompt, eos, tokens) <==>
               Faithful(t, prompt, eos, first) && c !in eos && c == Choice(t, prompt + first) by {
        LastIsChoice(t, prompt, eos, first, c);
      }
      assert FollowsTarget(t, prompt, eos, tokens) <==>
               FollowsTarget(t, prompt, eos, first) && c !in eos && IsNext(t, prompt + first, c) by {
        LastFollows(t, prompt, eos, first, c);
      }
    }
  }

  lemma LastIsChoice(t: Target, prompt: seq<int>, eos: set<int>, first: seq<int>, c: int)
    ensures Faithful(t, prompt, eos, first + [c])
       <==> Faithful(t, prompt, eos, first) && c !in eos && c == Choice(t, prompt + first)
  {
    var g := Greedy(t, prompt, |first|);
    if first + [c] == g + [Choice(t, prompt + g)] {
      assert (first + [c])[..|first|] == first && (g + [Choice(t, prompt + g)])[..|first|] == g;
      assert (first + [c])[|first|] == c;
    }
    if Faithful(t, prompt, eos, first + [c]) {
      forall i | 0 <= i < |first| ensures first[i] !in eos { assert (first + [c])[i] == first[i]; }
    }
  }

  lemma LastFollows(t: Target, prompt: seq<int>, eos: set<int>, first: seq<int>, c: int)
    ensures FollowsTarget(t, prompt, eos, first + [c])
       <==> FollowsTarget(t, prompt, eos, first) && c !in eos && IsNext(t, prompt + first, c)
  {
    var all := first + [c];
    forall i | 0 <= i < |first| ensures all[..i] == first[..i] && all[i] == first[i] {}
    assert all[..|first|] == first && all[|first|] == c;
  }

  // ---- what a round accepts ----

  /**
   * Round r begins with the first `at` tokens and accepts m drafts: those that repeat the tokens, up to
   * the first that is not the target's next one, or to an end token.
   */
  ghost predicate Accepts(t: Target, prompt: seq<int>, eos: set<int>, draft: (nat, nat) -> Option<int>, k: nat,
                          tokens: seq<int>, r: nat, at: nat, m: nat) {
    && m <= k && at + Max(1, m) <= |tokens|
    && (forall i: nat | i < m :: draft(r, i) == Some(tokens[at + i]))
    && (m < k ==> forall c | IsNext(t, prompt + tokens[..at + m], c) :: c in eos || draft(r, m) != Some(c))
  }

  ghost predicate AllAccept(t: Target, prompt: seq<int>, eos: set<int>, draft: (nat, nat) -> Option<int>, k: nat,
                            tokens: seq<int>, acceptLens: seq<nat>) {
    forall r: nat | r < |acceptLens| ::
      Accepts(t, prompt, eos, draft, k, tokens, r, Committed(acceptLens[..r]), acceptLens[r])
  }

  /** The rounds that start with a draft equal to the token then emitted, among the first n. */
  function Hits(draft: (nat, nat) -> Option<int>, k: nat, tokens: seq<int>, acceptLens: seq<nat>, n: nat): nat
    requires n <= |acceptLens| + 1
  {
    if n == 0 then 0 else
      var at := Committed(acceptLens[..n - 1]);
      Hits(draft, k, tokens, acceptLens, n - 1)
      + (if k > 0 && at < |tokens| && draft(n - 1, 0) == Some(tokens[at]) then 1 else 0)
  }

  /** Later tokens and rounds change nothing about the earlier rounds. */
  lemma AcceptsStay(t: Target, prompt: seq<int>, eos: set<int>, draft: (nat, nat) -> Option<int>, k: nat,
                    tokens: seq<int>, more: seq<int>, r: nat, at: nat, m: nat)
    requires Accepts(t, prompt, eos, draft, k, tokens, r, at, m) && tokens <= more
    ensures Accepts(t, prompt, eos, draft, k, more, r, at, m)
  {
    assert more[..at + m] == tokens[..at + m];
  }

  lemma AllAcceptSnoc(t: Target, prompt: seq<int>, eos: set<int>, draft: (nat, nat) -> Option<int>, k: nat,
                      tokens: seq<int>, more: seq<int>, acceptLens: seq<nat>, m: nat)
    requires AllAccept(t, prompt, eos, draft, k, tokens, acceptLens) && tokens <= more
    requires Accepts(t, prompt, eos, draft, k, more, |acceptLens|, Committed(acceptLens), m)
    ensures AllAccept(t, prompt, eos, draft, k, more, acceptLens + [m])
  {
    var all := acceptLens + [m];
    forall r: nat | r < |all|
      ensures Accepts(t, prompt, eos, draft, k, more, r, Committed(all[..r]), all[r])
    {
      if r < |acceptLens| {
        assert all[..r] == acceptLens[..r];
        AcceptsStay(t, prompt, eos, draft, k, tokens, more, r, Committed(acceptLens[..r]), acceptLens[r]);
      } else {
        assert all[..r] == acceptLens;
      }
    }
  }

  lemma AllAcceptStay(t: Target, prompt: seq<int>, eos: set<int>, draft: (nat, nat) -> Option<int>, k: nat,
                      tokens: seq<int>, more: seq<int>, acceptLens: seq<nat>)
    requires AllAccept(t, prompt, eos, draft, k, tokens, acceptLens) && tokens <= more
    ensures AllAccept(t, prompt, eos, draft, k, more, acceptLens)
  {
    forall r: nat | r < |acceptLens|
      ensures Accepts(t, prompt, eos, draft, k, more, r, Committed(acceptLens[..r]), acceptLens[r])
    {
      AcceptsStay(t, prompt, eos, draft, k, tokens, more, r, Committed(acceptLens[..r]), acceptLens[r]);
    }
  }

  /** What the verification of a round found. */
  lemma RoundAccepts(t: Target, prompt: seq<int>, eos: set<int>, draft: (nat, nat) -> Option<int>, k: nat,
                     before: seq<int>, tokens: seq<int>, r: nat, first: int, g: int, m: nat, drafts: seq<int>)
    requires GoodTarget(t) && before <= tokens && |tokens| == |before| + Max(1, m) && m <= k == |drafts|
    requires forall i: nat | i < k :: draft(r, i) == Some(drafts[i])
    requires forall i: nat | i < m :: tokens[|before| + i] == drafts[i]
    requires first == Choice(t, prompt + before) && g == Choice(t, prompt + tokens)
    requires m == 0 && k > 0 ==> drafts[0] != first
    requires 0 < m < k ==> drafts[m] != g || g in eos
    ensures Accepts(t, prompt, eos, draft, k, tokens, r, |before|, m)
  {
    if m < k {
      assert tokens[..|before|] == before && (m > 0 ==> tokens[..|before| + m] == tokens);
      forall c | IsNext(t, prompt + tokens[..|before| + m], c) ensures c in eos || draft(r, m) != Some(c) {
        ChoiceIsNext(t, prompt + tokens[..|before| + m], c);
      }
    }
  }

  lemma {:induction false} CommittedGrows(acceptLens: seq<nat>, n: nat)
    requires n <= |acceptLens|
    ensures Committed(acceptLens[..n]) <= Committed(acceptLens)
    ensures n < |acceptLens| ==> Committed(acceptLens[..n]) < Committed(acceptLens)
    decreases |acceptLens| - n
  {
    if n < |acceptLens| {
      CommittedGrows(acceptLens, n + 1);
      assert acceptLens[..n + 1][..n] == acceptLens[..n];
    } else {
      assert acceptLens[..n] == acceptLens;
    }
  }

  lemma {:induction false} HitsStay(draft: (nat, nat) -> Option<int>, k: nat, tokens: seq<int>, more: seq<int>,
                                    acceptLens: seq<nat>, longer: seq<nat>, n: nat)
    requires n <= |acceptLens| && tokens <= more && acceptLens <= longer && |tokens| == Committed(acceptLens)
    ensures Hits(draft, k, more, longer, n) == Hits(draft, k, tokens, acceptLens, n)
  {
    if n > 0 {
      HitsStay(draft, k, tokens, more, acceptLens, longer, n - 1);
      assert longer[..n - 1] == acceptLens[..n - 1];
      CommittedGrows(acceptLens, n - 1);
    }
  }

  /** One more round. */
  lemma HitsNext(draft: (nat, nat) -> Option<int>, k: nat, before: seq<int>, tokens: seq<int>,
                 acceptLens: seq<nat>, longer: seq<nat>)
    requires before <= tokens && acceptLens <= longer && |before| == Committed(acceptLens) < |tokens|
    ensures Hits(draft, k, tokens, longer, |acceptLens| + 1)
         == Hits(draft, k, before, acceptLens, |acceptLens|)
            + (if k > 0 && draft(|acceptLens|, 0) == Some(tokens[|before|]) then 1 else 0)
  {
    HitsStay(draft, k, before, tokens, acceptLens, longer, |acceptLens|);
    assert longer[..|acceptLens|] == acceptLens;
  }

  /** What the report says of the drafts: the accepted counts, and the first drafts that hit. */
  ghost predicate Tallied(t: Target, prompt: seq<int>, eos: set<int>, draft: (nat, nat) -> Option<int>, k: nat,
                          tokens: seq<int>, acceptLens: seq<nat>, hits: nat, rounds: nat) {
    && AllAccept(t, prompt, eos, draft, k, tokens, acceptLens)
    && |acceptLens| <= rounds <= |acceptLens| + 1 && hits == Hits(draft, k, tokens, acceptLens, rounds)
  }

  lemma TallyRound(t: Target, prompt: seq<int>, eos: set<int>, draft: (nat, nat) -> Option<int>, k: nat,
                   before: seq<int>, tokens: seq<int>, acceptLens: seq<nat>, hits: nat)
    requires Tallied(t, prompt, eos, draft, k, before, acceptLens, hits, |acceptLens|)
    requires before <= tokens && |before| == Committed(acceptLens) < |tokens|
    ensures var hit := k > 0 && draft(|acceptLens|, 0) == Some(tokens[|before|]);
            Tallied(t, prompt, eos, draft, k, tokens, acceptLens, hits + (if hit then 1 else 0), |acceptLens| + 1)
  {
    HitsNext(draft, k, before, tokens, acceptLens, acceptLens);
    AllAcceptStay(t, prompt, eos, draft, k, before, tokens, acceptLens);
  }

  lemma TallySnoc(t: Target, prompt: seq<int>, eos: set<int>, draft: (nat, nat) -> Option<int>, k: nat,
                  before: seq<int>, tokens: seq<int>, acceptLens: seq<nat>, hits: nat, m: nat)
    requires before <= tokens && |before| == Committed(acceptLens) < |tokens| == |before| + Max(1, m)
    requires Tallied(t, prompt, eos, draft, k, tokens, acceptLens, hits, |acceptLens| + 1)
    requires Accepts(t, prompt, eos, draft, k, tokens, |acceptLens|, |before|, m)
    ensures Tallied(t, prompt, eos, draft, k, tokens, acceptLens + [m], hits, |acceptLens| + 1)
    ensures Committed(acceptLens + [m]) == |tokens|
  {
    HitsNext(draft, k, before, tokens, acceptLens, acceptLens);
    HitsNext(draft, k, before, tokens, acceptLens, acceptLens + [m]);
    AllAcceptSnoc(t, prompt, eos, draft, k, tokens, tokens, acceptLens, m);
    assert (acceptLens + [m])[..|acceptLens|] == acceptLens;
  }

  /** Between decodes: the session holds prompt and output, and g is the target's next token. */
  ghost predicate InStep(s: Session, prompt: seq<int>, eos: set<int>, tokens: seq<int>, g: int)
    reads s
  {
    GoodTarget(s.target) && Faithful(s.target, prompt, eos, tokens)
    && s.ctx == prompt + tokens && g == Choice(s.target, s.ctx)
  }

  lemma FaithfulSnoc(t: Target, prompt: seq<int>, eos: set<int>, tokens: seq<int>)
    requires Faithful(t, prompt, eos, tokens) && Choice(t, prompt + tokens) !in eos
    ensures Faithful(t, prompt, eos, tokens + [Choice(t, prompt + tokens)])
  {}

  /** Commits g, which is not an end token. None when the engine failed; g is committed all the same. */
  method Commit(s: Session, prompt: seq<int>, eos: set<int>, tokens: seq<int>, g: int) returns (next: Option<int>)
    requires InStep(s, prompt, eos, tokens, g) && g !in eos
    modifies s
    ensures Faithful(s.target, prompt, eos, tokens + [g])
    ensures next.Some? ==> InStep(s, prompt, eos, tokens + [g], next.value)
  {
    FaithfulSnoc(s.target, prompt, eos, tokens);
    next := Advance(s, g);
    Assoc(prompt, tokens, [g]);
  }

  /**
   * One round's verification: accept the leading drafts that the target agrees with, and commit
   * the target's own token when the first one misses. `g` is None after an engine failure.
   */
  method Verify(s: Session, prompt: seq<int>, eos: set<int>, before: seq<int>, g0: int, drafts: seq<int>)
    returns (tokens: seq<int>, g: Option<int>, m: nat)
    requires InStep(s, prompt, eos, before, g0) && g0 !in eos
    modifies s
    ensures Faithful(s.target, prompt, eos, tokens) && before <= tokens
    ensures |before| < |tokens| <= |before| + Max(1, |drafts|) && tokens[|before|] == g0
    ensures g.Some? ==> InStep(s, prompt, eos, tokens, g.value) && m <= |drafts| && |tokens| == |before| + Max(1, m)
    ensures g.Some? && m == 0 && |drafts| > 0 ==> drafts[0] != g0
    ensures g.Some? && 0 < m < |drafts| ==> drafts[m] != g.value || g.value in eos
    ensures forall i | 0 <= i < m && i < |drafts| :: |before| + i < |tokens| && tokens[|before| + i] == drafts[i]
  {
    tokens, g, m := before, Some(g0), 0;
    while m < |drafts| && drafts[m] == g.value && g.value !in eos
      invariant m <= |drafts| && g.Some? && InStep(s, prompt, eos, tokens, g.value)
      invariant before <= tokens && |tokens| == |before| + m
      invariant if m == 0 then g.value == g0 else tokens[|before|] == g0
      invariant forall i | 0 <= i < m :: tokens[|before| + i] == drafts[i]
      decreases |drafts| - m
    {
      var token := g.value;
      var next := Commit(s, prompt, eos, tokens, token);
      m := m + 1;
      tokens := tokens + [token];
      g := next;
      if g.None? { return; }
    }
    if m == 0 {
      var token := g.value;
      var next := Commit(s, prompt, eos, tokens, token);
      tokens := tokens + [token];
      g := next;
    }
  }

  /** K proposals of the draft; None when a draft step fails. */
  method Draft(draft: (nat, nat) -> Option<int>, round: nat, k: nat) returns (drafts: Option<seq<int>>)
    ensures drafts.Some? ==> |drafts.value| == k && forall i: nat | i < k :: draft(round, i) == Some(drafts.value[i])
  {
    var ds := [];
    for i := 0 to k
      invariant |ds| == i && forall x: nat | x < i :: draft(round, x) == Some(ds[x])
    {
      var d := draft(round, i);
      if d.None? { return None; }
      ds := ds + [d.value];
    }
    drafts := Some(ds);
  }

  /** The decode part of run_eagle_accept. `draft(r, i)` is the draft's i-th proposal of round r. */
  method Run(s: Session, draft: (nat, nat) -> Option<int>, prompt: seq<int>, eos: set<int>, nDecode: nat, k: nat)
    returns (r: Result<Report, EagleError>)
    requires GoodTarget(s.target) && s.ctx == []
    modifies s
    ensures r.Err? && r.error.PromptTooShort? <==> |prompt| < 2
    ensures r.Ok? ==> FollowsTarget(s.target, prompt, eos, r.value.tokens)
    ensures r.Ok? ==> |r.value.tokens| <= if nDecode == 0 then 0 else nDecode - 1 + Max(1, k)
    ensures r.Ok? && !r.value.stopped ==> |r.value.tokens| == Committed(r.value.acceptLens)
    ensures r.Ok? && !r.value.stopped ==>
              |r.value.tokens| >= nDecode || EndsHere(s.target, prompt + r.value.tokens, eos)
    ensures r.Ok? ==> Tallied(s.target, prompt, eos, draft, k, r.value.tokens, r.value.acceptLens,
                              r.value.singleHit, r.value.singleN)
    ensures r.Ok? ==> r.value.singleN == |r.value.acceptLens| + (if r.value.stopped then 1 else 0)
  {
    if |prompt| < 2 { return Err(PromptTooShort); }
    var np := |prompt|;
    var ok := s.Prefill(prompt[..np - 1]);
    if !ok { return Err(PrefillFailed); }
    var g := Advance(s, prompt[np - 1]);
    if g.None? { return Err(PrimeFailed); }
    assert prompt == prompt[..np - 1] + [prompt[np - 1]];
    assert prompt + [] == prompt;
    var tokens: seq<int>, acceptLens: seq<nat>, singleHit: nat, singleN: nat := [], [], 0, 0;
    while |tokens| < nDecode && g.value !in eos
      invariant g.Some? && InStep(s, prompt, eos, tokens, g.value)
      invariant |tokens| == Committed(acceptLens)
      invariant |tokens| <= if nDecode == 0 then 0 else nDecode - 1 + Max(1, k)
      invariant singleN == |acceptLens|
      invariant Tallied(s.target, prompt, eos, draft, k, tokens, acceptLens, singleHit, singleN)
      decreases nDecode - |tokens|
    {
      var drafts := Draft(draft, |acceptLens|, k);
      if drafts.None? { return Err(DraftFailed); }
      ghost var before, first, hits := tokens, g.value, singleHit;
      singleN := singleN + 1;
      if k > 0 && drafts.value[0] == g.value { singleHit := singleHit + 1; }
      var m;
      tokens, g, m := Verify(s, prompt, eos, tokens, g.value, drafts.value);
      TallyRound(s.target, prompt, eos, draft, k, before, tokens, acceptLens, hits);
      if g.None? {
        GreedyFollows(s.target, prompt, eos, tokens);
        return Ok(Report(tokens, acceptLens, singleHit, singleN, true));
      }
      RoundAccepts(s.target, prompt, eos, draft, k, before, tokens, singleN - 1, first, g.value, m, drafts.value);
      TallySnoc(s.target, prompt, eos, draft, k, before, tokens, acceptLens, singleHit, m);
      acceptLens := acceptLens + [m];
    }
    GreedyFollows(s.target, prompt, eos, tokens);
    ChoiceIsNext(s.target, prompt + tokens, g.value);
    r := Ok(Report(tokens, acceptLens, singleHit, singleN, false));
  }

  // ---- drafts do not matter ----

  lemma {:induction false} GreedyPrefix(t: Target, ctx: seq<int>, m: nat, n: nat)
    requires m <= n
    ensures Greedy(t, ctx, n)[..m] == Greedy(t, ctx, m)
  {
    if m < n {
      GreedyPrefix(t, ctx, m, n - 1);
      assert Greedy(t, ctx, n)[..m] == Greedy(t, ctx, n - 1)[..m];
    }
  }

  /** Two runs on one prompt, whatever their drafts, K and failures: one output begins the other. */
  lemma RunsAgree(t: Target, prompt: seq<int>, eos: set<int>, a: seq<int>, b: seq<int>)
    requires GoodTarget(t) && FollowsTarget(t, prompt, eos, a) && FollowsTarget(t, prompt, eos, b)
    ensures a <= b || b <= a
  {
    GreedyFollows(t, prompt, eos, a);
    GreedyFollows(t, prompt, eos, b);
    if |a| <= |b| { GreedyPrefix(t, prompt, |a|, |b|); } else { GreedyPrefix(t, prompt, |b|, |a|); }
  }

  /** Runs that ended at an end token before the limit emitted the same text. */
  lemma EndedRunsAreEqual(t: Target, prompt: seq<int>, eos: set<int>, a: seq<int>, b: seq<int>)
    requires GoodTarget(t) && FollowsTarget(t, prompt, eos, a) && FollowsTarget(t, prompt, eos, b)
    requires EndsHere(t, prompt + a, eos) && EndsHere(t, prompt + b, eos)
    ensures a == b
  {
    EndIsChoice(t, prompt + a, eos);
    EndIsChoice(t, prompt + b, eos);
    GreedyFollows(t, prompt, eos, a);
    GreedyFollows(t, prompt, eos, b);
    EndBlocks(t, prompt, eos, a, b);
    EndBlocks(t, prompt, eos, b, a);
    RunsAgree(t, prompt, eos, a, b);
  }

  lemma EndIsChoice(t: Target, ctx: seq<int>, eos: set<int>)
    requires GoodTarget(t)
    ensures EndsHere(t, ctx, eos) <==> Choice(t, ctx) in eos
  {
    ChoiceIsNext(t, ctx, Choice(t, ctx));
    if EndsHere(t, ctx, eos) {
      var c :| c in eos && IsNext(t, ctx, c);
      ChoiceIsNext(t, ctx, c);
    }
  }

  lemma NextIsChoice(t: Target, prompt: seq<int>, a: seq<int>, b: seq<int>)
    requires a == Greedy(t, prompt, |a|) && b == Greedy(t, prompt, |b|) && |a| < |b|
    ensures b[|a|] == Choice(t, prompt + a)
  {
    GreedyPrefix(t, prompt, |a| + 1, |b|);
    assert b[|a|] == Greedy(t, prompt, |a| + 1)[|a|];
  }

  lemma EndBlocks(t: Target, prompt: seq<int>, eos: set<int>, a: seq<int>, b: seq<int>)
    requires Faithful(t, prompt, eos, a) && Faithful(t, prompt, eos, b) && Choice(t, prompt + a) in eos
    ensures |b| <= |a|
  {
    if |a| < |b| { NextIsChoice(t, prompt, a, b); }
  }
}
