/**
 * What a tape of ticks leaves (tools/sp_daemon/src/kairos_runner.rs), from the model's tokens: which text
 * a decision has, what stays in the session, and what the log records.
 */
module KairosLaw {
  import opened Common
  import opened Kairos

  /** The texts of tokens one after the other. */
  function TextOf(m: Model, tokens: seq<int>): bytes {
    if tokens == [] then [] else TextOf(m, tokens[..|tokens| - 1]) + m.piece(tokens[|tokens| - 1])
  }

  ghost predicate Decided(text: bytes) { Says(text, "</ACTION>") || Says(text, "NO_OP") || Says(text, "NOOP") }

  /** Every token is the model's greedy one after those before it, and none is an end token. */
  ghost predicate AreGreedy(m: Model, ctx: seq<int>, tokens: seq<int>) {
    forall i | 0 <= i < |tokens| :: tokens[i] == m.next(ctx + tokens[..i]) && tokens[i] !in m.eos
  }

  /** The first n tokens leave the decision open and the engine takes each. */
  ghost predicate GoOn(m: Model, ctx: seq<int>, tokens: seq<int>, n: nat) {
    n <= |tokens|
    && forall i | 0 < i <= n :: !Decided(TextOf(m, tokens[..i])) && !m.fails(ctx + tokens[..i])
  }

  /**
   * Decoding from ctx gives these tokens and keeps the first n of them in the session. It stops at the
   * limit, before an end token, or with the token that decides, which the session does not get.
   */
  ghost predicate Decodes(m: Model, ctx: seq<int>, limit: nat, tokens: seq<int>, n: nat) {
    && AreGreedy(m, ctx, tokens) && |tokens| <= limit && GoOn(m, ctx, tokens, n)
    && if n == |tokens| then n == limit || m.next(ctx + tokens) in m.eos
       else n == |tokens| - 1 && Decided(TextOf(m, tokens))
  }

  /** One decision: its text and what is in the session after it. An empty frame decides nothing. */
  ghost predicate DecisionLaw(m: Model, ctx: seq<int>, frame: seq<int>, raw: bytes, after: seq<int>) {
    if frame == [] then raw == [] && after == ctx else
      !m.fails(ctx + frame)
      && exists tokens, n: nat :: DecisionBy(m, ctx + frame, tokens, n, raw, after)
  }

  ghost predicate DecisionBy(m: Model, ctx: seq<int>, tokens: seq<int>, n: nat, raw: bytes, after: seq<int>) {
    Decodes(m, ctx, 24, tokens, n) && raw == TextOf(m, tokens) && after == ctx + tokens[..n]
  }

  /** The tokens of Steps after those already decoded. */
  ghost predicate StepsBy(m: Model, ctx: seq<int>, had: seq<int>, tokens: seq<int>, n: nat, fuel: nat, o: Outcome) {
    && had <= tokens && |had| <= n && Decodes(m, ctx, |had| + fuel, tokens, n)
    && o == Outcome(TextOf(m, tokens), ctx + tokens[..n])
  }

  lemma CompleteIsDecided(text: bytes)
    ensures Complete(text) <==> Decided(text)
  {
    ReplyLaw(text);
  }

  lemma TextSnoc(m: Model, had: seq<int>, t: int)
    ensures TextOf(m, had + [t]) == TextOf(m, had) + m.piece(t)
  {
    assert (had + [t])[..|had|] == had;
  }

  lemma GreedySnoc(m: Model, ctx: seq<int>, had: seq<int>, t: int)
    requires AreGreedy(m, ctx, had) && t == m.next(ctx + had) && t !in m.eos
    ensures AreGreedy(m, ctx, had + [t])
  {
    var all := had + [t];
    forall i | 0 <= i < |all| ensures all[i] == m.next(ctx + all[..i]) && all[i] !in m.eos {
      assert i < |had| ==> all[..i] == had[..i];
      assert i == |had| ==> all[..i] == had;
    }
  }

  lemma GoOnSnoc(m: Model, ctx: seq<int>, had: seq<int>, t: int)
    requires GoOn(m, ctx, had, |had|)
    ensures GoOn(m, ctx, had + [t], |had|)
    ensures !Decided(TextOf(m, had + [t])) && !m.fails(ctx + (had + [t])) ==> GoOn(m, ctx, had + [t], |had| + 1)
  {
    var all := had + [t];
    assert all[..|all|] == all;
    forall i | 0 < i <= |had| ensures all[..i] == had[..i] {}
  }

  /** A decoding that succeeds gives tokens by the law. */
  lemma {:induction false} StepsAreLawful(m: Model, ctx: seq<int>, had: seq<int>, fuel: nat)
    returns (tokens: seq<int>, n: nat)
    requires AreGreedy(m, ctx, had) && GoOn(m, ctx, had, |had|)
    requires Steps(m, ctx + had, TextOf(m, had), fuel).Some?
    ensures StepsBy(m, ctx, had, tokens, n, fuel, Steps(m, ctx + had, TextOf(m, had), fuel).value)
    decreases fuel
  {
    var t := m.next(ctx + had);
    if fuel == 0 || t in m.eos {
      tokens, n := had, |had|;
      assert had[..|had|] == had;
    } else {
      var all := had + [t];
      StepOn(m, ctx, had, fuel, all);
      GreedySnoc(m, ctx, had, t);
      GoOnSnoc(m, ctx, had, t);
      CompleteIsDecided(TextOf(m, all));
      if Complete(TextOf(m, all)) {
        tokens, n := all, |had|;
        assert all[..|had|] == had;
      } else {
        tokens, n := StepsAreLawful(m, ctx, all, fuel - 1);
      }
    }
  }

  /** And tokens by the law are what the decoding gives. */
  lemma {:induction false} LawfulAreSteps(m: Model, ctx: seq<int>, had: seq<int>, fuel: nat, tokens: seq<int>, n: nat)
    requires had <= tokens && |had| <= n && Decodes(m, ctx, |had| + fuel, tokens, n)
    ensures Steps(m, ctx + had, TextOf(m, had), fuel) == Some(Outcome(TextOf(m, tokens), ctx + tokens[..n]))
    decreases fuel
  {
    var t := m.next(ctx + had);
    if |had| == |tokens| {
      assert had == tokens && tokens[..n] == tokens;
    } else {
      var all := NextLawful(m, ctx, had, fuel, tokens, n);
      if n > |had| { LawfulAreSteps(m, ctx, all, fuel - 1, tokens, n); }
      StepOn(m, ctx, had, fuel, all);
    }
  }

  /** What Steps does after the tokens had. */
  lemma StepOn(m: Model, ctx: seq<int>, had: seq<int>, fuel: nat, all: seq<int>)
    requires fuel > 0 && m.next(ctx + had) !in m.eos && all == had + [m.next(ctx + had)]
    ensures Complete(TextOf(m, all)) ==>
              Steps(m, ctx + had, TextOf(m, had), fuel) == Some(Outcome(TextOf(m, all), ctx + had))
    ensures !Complete(TextOf(m, all)) && m.fails(ctx + all) ==> Steps(m, ctx + had, TextOf(m, had), fuel) == None
    ensures !Complete(TextOf(m, all)) && !m.fails(ctx + all) ==>
              Steps(m, ctx + had, TextOf(m, had), fuel) == Steps(m, ctx + all, TextOf(m, all), fuel - 1)
  {
    TextSnoc(m, had, m.next(ctx + had));
    Assoc(ctx, had, [m.next(ctx + had)]);
  }

  lemma OneLonger(had: seq<int>, tokens: seq<int>) returns (all: seq<int>)
    requires had < tokens
    ensures all == had + [tokens[|had|]] == tokens[..|had| + 1] && had == tokens[..|had|]
    ensures |all| == |tokens| ==> all == tokens
  {
    all := tokens[..|had| + 1];
  }

  lemma NextLawful(m: Model, ctx: seq<int>, had: seq<int>, fuel: nat, tokens: seq<int>, n: nat) returns (all: seq<int>)
    requires had < tokens && |had| <= n && Decodes(m, ctx, |had| + fuel, tokens, n)
    ensures all == had + [m.next(ctx + had)] && all <= tokens && fuel > 0 && m.next(ctx + had) !in m.eos
    ensures n > |had| ==> !Complete(TextOf(m, all)) && !m.fails(ctx + all)
    ensures n == |had| ==> Complete(TextOf(m, all)) && all == tokens && tokens[..n] == had
  {
    all := OneLonger(had, tokens);
    CompleteIsDecided(TextOf(m, all));
    assert tokens[|had|] == m.next(ctx + tokens[..|had|]);
  }

  /** The decision of the loop is the one of the law, and it fails exactly where the law has none. */
  lemma DecisionKeepsLaw(m: Model, ctx: seq<int>, frame: seq<int>, raw: bytes, after: seq<int>)
    ensures Decide(m, ctx, frame) == Some(Outcome(raw, after)) <==> DecisionLaw(m, ctx, frame, raw, after)
  {
    if frame != [] && !m.fails(ctx + frame) {
      var now := ctx + frame;
      assert now + [] == now && TextOf(m, []) == [];
      if Decide(m, ctx, frame) == Some(Outcome(raw, after)) {
        var tokens, n := StepsAreLawful(m, now, [], MAX_DECISION_TOKENS);
        assert DecisionBy(m, now, tokens, n, raw, after);
      }
      if DecisionLaw(m, ctx, frame, raw, after) {
        var tokens, n: nat :| DecisionBy(m, now, tokens, n, raw, after);
        LawfulAreSteps(m, now, [], MAX_DECISION_TOKENS, tokens, n);
      }
    }
  }

  // ---- a whole tape ----

  /** One tick from ctx to `next`: its record, and the session with an idle tick taken back when pruning. */
  ghost predicate TickLaw(m: Model, ctx: seq<int>, ev: Event, prune: bool, t: Tick, next: seq<int>) {
    && t.idx == ev.idx && t.expected == ev.expected && t.sessionPos == |next|
    && t.decided == (if Says(t.raw, "<ACTION>") then ActionReply
                     else if Says(t.raw, "NO_OP") || Says(t.raw, "NOOP") then NoopReply else Malformed)
    && exists after :: DecisionLaw(m, ctx, ev.frame, t.raw, after) && next == Pruned(ctx, t, prune, after)
  }

  function Pruned(ctx: seq<int>, t: Tick, prune: bool, after: seq<int>): seq<int> {
    if prune && t.decided.NoopReply? then ctx else after
  }

  /** The contexts between the ticks. */
  ghost predicate TapeLaw(m: Model, ctxs: seq<seq<int>>, tape: seq<Event>, prune: bool, log: seq<Tick>) {
    && |log| == |tape| && |ctxs| == |tape| + 1
    && forall i | 0 <= i < |tape| :: TickLaw(m, ctxs[i], tape[i], prune, log[i], ctxs[i + 1])
  }

  lemma TickKeepsLaw(m: Model, ctx: seq<int>, ev: Event, prune: bool, t: Tick, next: seq<int>)
    ensures OneTick(m, ctx, ev, prune) == Some((t, next)) <==> TickLaw(m, ctx, ev, prune, t, next)
  {
    ReplyLaw(t.raw);
    if OneTick(m, ctx, ev, prune) == Some((t, next)) {
      var o := Decide(m, ctx, ev.frame).value;
      DecisionKeepsLaw(m, ctx, ev.frame, o.raw, o.ctx);
    }
    if TickLaw(m, ctx, ev, prune, t, next) {
      var after :| DecisionLaw(m, ctx, ev.frame, t.raw, after) && next == Pruned(ctx, t, prune, after);
      DecisionKeepsLaw(m, ctx, ev.frame, t.raw, after);
    }
  }

  /** A run that succeeds obeys the law from the contract's context to its last one. */
  lemma {:induction false} TicksKeepLaw(m: Model, ctx: seq<int>, tape: seq<Event>, prune: bool)
    returns (ctxs: seq<seq<int>>)
    requires Ticks(m, ctx, tape, prune).Some?
    ensures TapeLaw(m, ctxs, tape, prune, Ticks(m, ctx, tape, prune).value.log)
    ensures ctxs[0] == ctx && ctxs[|tape|] == Ticks(m, ctx, tape, prune).value.ctx
    decreases |tape|
  {
    if tape == [] {
      ctxs := [ctx];
    } else {
      var k := |tape| - 1;
      var part, t := TicksSnoc(m, ctx, tape, prune);
      var init, ev := tape[..k], tape[k];
      var first := TicksKeepLaw(m, ctx, init, prune);
      TickKeepsLaw(m, part.ctx, ev, prune, t.0, t.1);
      ctxs := first + [t.1];
      TapeLawSnoc(m, first, init, prune, part.log, ev, t.0, t.1);
      assert tape == init + [ev];
    }
  }

  lemma TapeLawSnoc(m: Model, ctxs: seq<seq<int>>, tape: seq<Event>, prune: bool, log: seq<Tick>, ev: Event, t: Tick,
                    next: seq<int>)
    requires TapeLaw(m, ctxs, tape, prune, log) && TickLaw(m, ctxs[|tape|], ev, prune, t, next)
    ensures TapeLaw(m, ctxs + [next], tape + [ev], prune, log + [t])
  {}

  /** And a log by the law is the log of the run. */
  lemma {:induction false} LawfulIsRun(m: Model, ctxs: seq<seq<int>>, tape: seq<Event>, prune: bool, log: seq<Tick>)
    requires TapeLaw(m, ctxs, tape, prune, log)
    ensures Ticks(m, ctxs[0], tape, prune) == Some(Run(log, ctxs[|tape|]))
    decreases |tape|
  {
    if tape != [] {
      var k := |tape| - 1;
      TapeLawInit(m, ctxs, tape, prune, log);
      LawfulIsRun(m, ctxs[..k + 1], tape[..k], prune, log[..k]);
      TickKeepsLaw(m, ctxs[k], tape[k], prune, log[k], ctxs[k + 1]);
      RunSnoc(m, ctxs[0], tape[..k], prune, log[..k], ctxs[k], tape[k], log[k], ctxs[k + 1]);
    }
  }

  lemma TapeLawInit(m: Model, ctxs: seq<seq<int>>, tape: seq<Event>, prune: bool, log: seq<Tick>)
    requires tape != [] && TapeLaw(m, ctxs, tape, prune, log)
    ensures var k := |tape| - 1;
            && TapeLaw(m, ctxs[..k + 1], tape[..k], prune, log[..k])
            && TickLaw(m, ctxs[k], tape[k], prune, log[k], ctxs[k + 1])
            && tape == tape[..k] + [tape[k]] && log == log[..k] + [log[k]]
  {}

  lemma RunSnoc(m: Model, ctx: seq<int>, tape: seq<Event>, prune: bool, log: seq<Tick>, now: seq<int>, ev: Event,
                t: Tick, next: seq<int>)
    requires Ticks(m, ctx, tape, prune) == Some(Run(log, now)) && OneTick(m, now, ev, prune) == Some((t, next))
    ensures Ticks(m, ctx, tape + [ev], prune) == Some(Run(log + [t], next))
  {
    assert (tape + [ev])[..|tape|] == tape;
  }

}
