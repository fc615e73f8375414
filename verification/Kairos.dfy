/**
 * The heartbeat loop (tools/sp_daemon/src/kairos_runner.rs): a persistent session, one greedy
 * decision per event, and the rewind that discards idle ticks.
 *
 * Decisions are classified on bytes: lossy UTF-8 conversion and trimming neither create nor
 * destroy the ASCII markers the source looks for.
 */
module Kairos {
  import opened Common

  datatype Decision = Noop | Action

  datatype Parsed = NoopReply | ActionReply | Malformed

  // ---- classification ----

  function UpperByte(b: byte): byte { if 0x61 <= b <= 0x7A then b - 0x20 else b }

  function Upper(text: bytes): (u: bytes)
    ensures |u| == |text|
  {
    seq(|text|, i requires 0 <= i < |text| => UpperByte(text[i]))
  }

  predicate FoundAt(text: bytes, pattern: bytes, i: nat) {
    i + |pattern| <= |text| && text[i..i + |pattern|] == pattern
  }

  predicate Contains(text: bytes, pattern: bytes) {
    exists i | 0 <= i <= |text| :: FoundAt(text, pattern, i)
  }

  const ACTION_OPEN: bytes := [0x3C, 0x41, 0x43, 0x54, 0x49, 0x4F, 0x4E, 0x3E]           // <ACTION>
  const ACTION_CLOSE: bytes := [0x3C, 0x2F, 0x41, 0x43, 0x54, 0x49, 0x4F, 0x4E, 0x3E]    // </ACTION>
  const NO_OP: bytes := [0x4E, 0x4F, 0x5F, 0x4F, 0x50]
  const NOOP: bytes := [0x4E, 0x4F, 0x4F, 0x50]

  /** parse_decision: an action tag wins over a no-op marker. */
  function Parse(text: bytes): Parsed {
    var up := Upper(text);
    if Contains(up, ACTION_OPEN) then ActionReply
    else if Contains(up, NO_OP) || Contains(up, NOOP) then NoopReply
    else Malformed
  }

  /** Decoding stops as soon as the text is a complete decision. */
  predicate Complete(text: bytes) {
    var up := Upper(text);
    Contains(up, ACTION_CLOSE) || Contains(up, NO_OP) || Contains(up, NOOP)
  }

  /** Text that stopped the decoding at a no-op marker is never taken for malformed. */
  lemma StoppedAtMarker(text: bytes)
    requires Complete(text) && !Contains(Upper(text), ACTION_CLOSE)
    ensures Parse(text) != Malformed
  {}

  // ---- what a reply says ----

  /** The byte is the letter, capital or small, or the sign. */
  predicate IsLetter(b: byte, c: char) { b == c as int || ('A' <= c <= 'Z' && b == c as int + 32) }

  predicate SaysAt(text: bytes, word: string, i: nat) {
    i + |word| <= |text| && forall j | 0 <= j < |word| :: IsLetter(text[i + j], word[j])
  }

  /** The word occurs in the text, its letters in either case. */
  predicate Says(text: bytes, word: string) { exists i | 0 <= i <= |text| :: SaysAt(text, word, i) }

  /** The pattern is the word in capitals. */
  predicate IsCapitals(pattern: bytes, word: string) {
    |pattern| == |word| && forall j | 0 <= j < |word| :: pattern[j] == word[j] as int && !('a' <= word[j] <= 'z')
  }

  lemma FoundIsSaid(text: bytes, pattern: bytes, word: string, i: nat)
    requires IsCapitals(pattern, word)
    ensures FoundAt(Upper(text), pattern, i) <==> SaysAt(text, word, i)
  {
    if i + |word| <= |text| {
      forall j | 0 <= j < |word|
        ensures Upper(text)[i..i + |word|][j] == pattern[j] <==> IsLetter(text[i + j], word[j])
      {
        assert pattern[j] == word[j] as int;
      }
    }
  }

  lemma ContainsIsSays(text: bytes, pattern: bytes, word: string)
    requires IsCapitals(pattern, word)
    ensures Contains(Upper(text), pattern) <==> Says(text, word)
  {
    forall i: nat | i <= |text| ensures FoundAt(Upper(text), pattern, i) <==> SaysAt(text, word, i) {
      FoundIsSaid(text, pattern, word, i);
    }
  }

  /** An action tag decides first, then either spelling of the no-op; the closing tag or a no-op ends the decoding. */
  lemma ReplyLaw(text: bytes)
    ensures Parse(text) == if Says(text, "<ACTION>") then ActionReply
                           else if Says(text, "NO_OP") || Says(text, "NOOP") then NoopReply else Malformed
    ensures Complete(text) <==> Says(text, "</ACTION>") || Says(text, "NO_OP") || Says(text, "NOOP")
  {
    ContainsIsSays(text, ACTION_OPEN, "<ACTION>");
    ContainsIsSays(text, ACTION_CLOSE, "</ACTION>");
    ContainsIsSays(text, NO_OP, "NO_OP");
    ContainsIsSays(text, NOOP, "NOOP");
  }

  /** The bytes are equal, or one letter in two cases. */
  predicate SameLetter(a: byte, b: byte) {
    a == b || (0x61 <= a <= 0x7A && b == a - 0x20) || (0x61 <= b <= 0x7A && a == b - 0x20)
  }

  /** The case of letters changes no decision, and not where the decoding stops. */
  lemma CaseIsFree(a: bytes, b: bytes)
    requires |a| == |b| && forall i | 0 <= i < |a| :: SameLetter(a[i], b[i])
    ensures Parse(a) == Parse(b) && (Complete(a) <==> Complete(b))
  {
    assert Upper(a) == Upper(b);
  }

  // ---- one tick ----

  const MAX_DECISION_TOKENS: nat := 24

  /** The model: the greedy token after a context, token texts, end tokens, and contexts the engine refuses. */
  datatype Model = Model(next: seq<int> -> int, piece: int -> bytes, eos: set<int>, fails: seq<int> -> bool)

  /** A decision's text and the context it leaves in the session. */
  datatype Outcome = Outcome(raw: bytes, ctx: seq<int>)

  function Steps(m: Model, ctx: seq<int>, raw: bytes, fuel: nat): Option<Outcome>
    decreases fuel
  {
    if fuel == 0 || m.next(ctx) in m.eos then Some(Outcome(raw, ctx)) else
      var t := m.next(ctx);
      var text := raw + m.piece(t);
      if Complete(text) then Some(Outcome(text, ctx))
      else if m.fails(ctx + [t]) then None
      else Steps(m, ctx + [t], text, fuel - 1)
  }

  function Decide(m: Model, ctx: seq<int>, frame: seq<int>): Option<Outcome> {
    if frame == [] then Some(Outcome([], ctx))
    else if m.fails(ctx + frame) then None
    else Steps(m, ctx + frame, [], MAX_DECISION_TOKENS)
  }

  lemma {:induction false} StepsExtend(m: Model, ctx: seq<int>, raw: bytes, fuel: nat)
    ensures Steps(m, ctx, raw, fuel).Some? ==>
              ctx <= Steps(m, ctx, raw, fuel).value.ctx && |Steps(m, ctx, raw, fuel).value.ctx| <= |ctx| + fuel
    decreases fuel
  {
    if fuel > 0 {
      var t := m.next(ctx);
      StepsExtend(m, ctx + [t], raw + m.piece(t), fuel - 1);
    }
  }

  /** A decision only appends to the session, at most the frame and the token limit. */
  lemma DecideExtends(m: Model, ctx: seq<int>, frame: seq<int>)
    ensures Decide(m, ctx, frame).Some? ==>
              ctx <= Decide(m, ctx, frame).value.ctx
              && |Decide(m, ctx, frame).value.ctx| <= |ctx| + |frame| + MAX_DECISION_TOKENS
  {
    StepsExtend(m, ctx + frame, [], MAX_DECISION_TOKENS);
  }

  // ---- the run ----

  datatype Event = Event(idx: nat, expected: Decision, frame: seq<int>)

  datatype Tick = Tick(idx: nat, expected: Decision, decided: Parsed, raw: bytes, sessionPos: nat)

  datatype Run = Run(log: seq<Tick>, ctx: seq<int>)

  /** The context after a tick: an idle tick's tokens are rewound when pruning. */
  function After(ctx: seq<int>, o: Outcome, prune: bool): seq<int> {
    if prune && Parse(o.raw).NoopReply? then ctx else o.ctx
  }

  function TickOf(ev: Event, o: Outcome, pos: nat): Tick { Tick(ev.idx, ev.expected, Parse(o.raw), o.raw, pos) }

  /** The ticks of a tape from a context; None when the engine fails. */
  function Ticks(m: Model, ctx: seq<int>, tape: seq<Event>, prune: bool): Option<Run>
    decreases |tape|
  {
    if tape == [] then Some(Run([], ctx)) else
      match Ticks(m, ctx, tape[..|tape| - 1], prune)
      case None => None
      case Some(r) =>
        match OneTick(m, r.ctx, tape[|tape| - 1], prune)
        case None => None
        case Some(t) => Some(Run(r.log + [t.0], t.1))
  }

  /** One tick: its record and the context after it. */
  function OneTick(m: Model, ctx: seq<int>, ev: Event, prune: bool): Option<(Tick, seq<int>)> {
    match Decide(m, ctx, ev.frame)
    case None => None
    case Some(o) =>
      var ctx' := After(ctx, o, prune);
      Some((TickOf(ev, o, |ctx'|), ctx'))
  }

  /** The entries of `s` at which `keep` holds. */
  function Picked<T>(s: seq<T>, keep: seq<bool>): (p: seq<T>)
    requires |keep| == |s|
    decreases |s|
  {
    if s == [] then [] else
      var k := |s| - 1;
      Picked(s[..k], keep[..k]) + (if keep[k] then [s[k]] else [])
  }

  /** Only ticks decided NO_OP are dropped. */
  predicate DropsIdle(log: seq<Tick>, keep: seq<bool>) {
    |keep| == |log| && forall i | 0 <= i < |log| :: keep[i] || log[i].decided.NoopReply?
  }

  /** Dropping the unkept ticks leaves the kept records and the final session. */
  ghost predicate NoTrace(m: Model, ctx: seq<int>, tape: seq<Event>, keep: seq<bool>, log: seq<Tick>, now: seq<int>)
    requires |keep| == |tape| == |log|
  {
    Ticks(m, ctx, Picked(tape, keep), true) == Some(Run(Picked(log, keep), now))
  }

  /**
   * With pruning on, deleting from the tape any ticks that were decided NO_OP leaves every other
   * tick's record and the final session as they were.
   */
  lemma {:induction false} IdleTicksLeaveNoTrace(m: Model, ctx: seq<int>, tape: seq<Event>, keep: seq<bool>,
                                                 log: seq<Tick>, now: seq<int>)
    requires Ticks(m, ctx, tape, true) == Some(Run(log, now)) && |log| == |tape| && DropsIdle(log, keep)
    ensures NoTrace(m, ctx, tape, keep, log, now)
    decreases |tape|
  {
    if tape != [] {
      var first, ev, part, t, keeps, k := LastTick(m, ctx, tape, keep, log, now);
      IdleTicksLeaveNoTrace(m, ctx, first, keeps, part.log, part.ctx);
      IdleStep(m, ctx, first, ev, part.log, part.ctx, t, keeps, k);
    }
  }

  /** A tape taken apart at its last tick. */
  lemma LastTick(m: Model, ctx: seq<int>, tape: seq<Event>, keep: seq<bool>, log: seq<Tick>, now: seq<int>)
    returns (first: seq<Event>, ev: Event, part: Run, t: (Tick, seq<int>), keeps: seq<bool>, k: bool)
    requires Ticks(m, ctx, tape, true) == Some(Run(log, now)) && |log| == |tape| > 0 && DropsIdle(log, keep)
    ensures tape == first + [ev] && keep == keeps + [k] && log == part.log + [t.0] && now == t.1
    ensures Ticks(m, ctx, first, true) == Some(part) && |part.log| == |first|
    ensures OneTick(m, part.ctx, ev, true) == Some(t)
    ensures DropsIdle(part.log, keeps) && (!k ==> t.0.decided.NoopReply?)
  {
    part, t := TicksSnoc(m, ctx, tape, true);
    DropsIdlePrefix(part.log, t.0, keep);
    first, ev := tape[..|tape| - 1], tape[|tape| - 1];
    keeps, k := keep[..|part.log|], keep[|part.log|];
  }

  /** A tape decided NO_OP throughout leaves the session at the contract, however long it is. */
  lemma IdleTapeIsFlat(m: Model, ctx: seq<int>, tape: seq<Event>, log: seq<Tick>, now: seq<int>)
    requires Ticks(m, ctx, tape, true) == Some(Run(log, now)) && forall i | 0 <= i < |log| :: log[i].decided.NoopReply?
    ensures now == ctx
  {
    LogLength(m, ctx, tape, true);
    var none := seq(|tape|, _ => false);
    IdleTicksLeaveNoTrace(m, ctx, tape, none, log, now);
    NonePicked(tape, none);
  }

  lemma {:induction false} NonePicked<T>(s: seq<T>, keep: seq<bool>)
    requires |keep| == |s| && forall i | 0 <= i < |keep| :: !keep[i]
    ensures Picked(s, keep) == []
    decreases |s|
  {
    if s != [] { NonePicked(s[..|s| - 1], keep[..|s| - 1]); }
  }

  lemma DropsIdlePrefix(log: seq<Tick>, t: Tick, keep: seq<bool>)
    requires DropsIdle(log + [t], keep)
    ensures DropsIdle(log, keep[..|log|]) && (keep[|log|] || t.decided.NoopReply?)
            && keep == keep[..|log|] + [keep[|log|]]
  {
    forall i | 0 <= i < |log| ensures keep[i] || log[i].decided.NoopReply? {
      assert (log + [t])[i] == log[i];
    }
    assert (log + [t])[|log|] == t;
  }

  lemma TicksSnoc(m: Model, ctx: seq<int>, tape: seq<Event>, prune: bool) returns (part: Run, t: (Tick, seq<int>))
    requires tape != [] && Ticks(m, ctx, tape, prune).Some?
    ensures Ticks(m, ctx, tape[..|tape| - 1], prune) == Some(part) && |part.log| == |tape| - 1
    ensures OneTick(m, part.ctx, tape[|tape| - 1], prune) == Some(t)
    ensures Ticks(m, ctx, tape, prune) == Some(Run(part.log + [t.0], t.1))
  {
    part := Ticks(m, ctx, tape[..|tape| - 1], prune).value;
    t := OneTick(m, part.ctx, tape[|tape| - 1], prune).value;
    LogLength(m, ctx, tape[..|tape| - 1], prune);
  }

  lemma PickedPush<T>(s: seq<T>, x: T, keep: seq<bool>, k: bool)
    requires |keep| == |s|
    ensures Picked(s + [x], keep + [k]) == Picked(s, keep) + (if k then [x] else [])
  {
    assert (s + [x])[..|s|] == s && (keep + [k])[..|s|] == keep;
  }

  /** Keeping or dropping one more tick. */
  lemma IdleStep(m: Model, ctx: seq<int>, tape: seq<Event>, ev: Event, log: seq<Tick>, now: seq<int>,
                 t: (Tick, seq<int>), keep: seq<bool>, k: bool)
    requires |keep| == |tape| == |log| && NoTrace(m, ctx, tape, keep, log, now)
    requires OneTick(m, now, ev, true) == Some(t) && (!k ==> t.0.decided.NoopReply?)
    ensures NoTrace(m, ctx, tape + [ev], keep + [k], log + [t.0], t.1)
  {
    PickedPush(tape, ev, keep, k);
    PickedPush(log, t.0, keep, k);
    if k {
      TickAppended(m, ctx, Picked(tape, keep), ev, Picked(log, keep), now);
    } else {
      IdleTick(m, now, ev);
      assert Picked(tape, keep) + [] == Picked(tape, keep) && Picked(log, keep) + [] == Picked(log, keep);
    }
  }

  /** A tick decided NO_OP is rewound altogether. */
  lemma IdleTick(m: Model, ctx: seq<int>, ev: Event)
    ensures OneTick(m, ctx, ev, true).Some? && OneTick(m, ctx, ev, true).value.0.decided.NoopReply?
            ==> OneTick(m, ctx, ev, true).value.1 == ctx
  {}

  lemma TickAppended(m: Model, ctx: seq<int>, tape: seq<Event>, ev: Event, log: seq<Tick>, now: seq<int>)
    requires Ticks(m, ctx, tape, true) == Some(Run(log, now)) && OneTick(m, now, ev, true).Some?
    ensures Ticks(m, ctx, tape + [ev], true)
         == Some(Run(log + [OneTick(m, now, ev, true).value.0], OneTick(m, now, ev, true).value.1))
  {
    assert (tape + [ev])[..|tape|] == tape;
  }

  lemma {:induction false} LogLength(m: Model, ctx: seq<int>, tape: seq<Event>, prune: bool)
    ensures Ticks(m, ctx, tape, prune).Some? ==> |Ticks(m, ctx, tape, prune).value.log| == |tape|
    decreases |tape|
  {
    if tape != [] { LogLength(m, ctx, tape[..|tape| - 1], prune); }
  }

  /** What each tick left in the session: nothing for a pruned one. */
  function Left(m: Model, ctx: seq<int>, tape: seq<Event>): seq<seq<int>>
    decreases |tape|
  {
    if tape == [] then [] else
      var before := Left(m, ctx, tape[..|tape| - 1]);
      match Decide(m, ctx + Flatten(before), tape[|tape| - 1].frame)
      case None => before
      case Some(o) =>
        if Parse(o.raw).NoopReply? || |o.ctx| < |ctx + Flatten(before)| then before + [[]]
        else before + [o.ctx[|ctx + Flatten(before)|..]]
  }

  /** One more tick leaves one more piece. */
  lemma LeftSnoc(m: Model, ctx: seq<int>, tape: seq<Event>, now: seq<int>, t: (Tick, seq<int>)) returns (last: seq<int>)
    requires tape != [] && now == ctx + Flatten(Left(m, ctx, tape[..|tape| - 1]))
    requires OneTick(m, now, tape[|tape| - 1], true) == Some(t)
    ensures Left(m, ctx, tape) == Left(m, ctx, tape[..|tape| - 1]) + [last] && t.1 == now + last
    ensures t.0.decided.NoopReply? ==> last == []
  {
    var frame := tape[|tape| - 1].frame;
    DecideExtends(m, now, frame);
    var o := Decide(m, now, frame).value;
    last := if Parse(o.raw).NoopReply? then [] else o.ctx[|now|..];
  }

  /** With pruning on the session is always the contract followed by the kept ticks in order. */
  lemma {:induction false} SessionIsKeptTicks(m: Model, ctx: seq<int>, tape: seq<Event>)
    requires Ticks(m, ctx, tape, true).Some?
    ensures Ticks(m, ctx, tape, true).value.ctx == ctx + Flatten(Left(m, ctx, tape))
    ensures |Left(m, ctx, tape)| == |tape| == |Ticks(m, ctx, tape, true).value.log|
    ensures forall i | 0 <= i < |tape| ::
              Ticks(m, ctx, tape, true).value.log[i].decided.NoopReply? ==> Left(m, ctx, tape)[i] == []
    decreases |tape|
  {
    if tape == [] {
      assert ctx + [] == ctx;
    } else {
      var part, t := TicksSnoc(m, ctx, tape, true);
      SessionIsKeptTicks(m, ctx, tape[..|tape| - 1]);
      var before := Left(m, ctx, tape[..|tape| - 1]);
      var last := LeftSnoc(m, ctx, tape, part.ctx, t);
      FlattenSnoc(before, last);
      Assoc(ctx, Flatten(before), last);
    }
  }

  // ---- counters ----

  datatype Counters = Counters(ticks: nat, noopCorrect: nat, actionCorrect: nat, falseActions: nat, missedEvents: nat,
                               malformed: nat)

  function Observed(c: Counters, expected: Decision, decided: Parsed): Counters {
    var d := c.(ticks := c.ticks + 1);
    match decided
    case Malformed => d.(malformed := c.malformed + 1)
    case NoopReply =>
      if expected.Noop? then d.(noopCorrect := c.noopCorrect + 1) else d.(missedEvents := c.missedEvents + 1)
    case ActionReply =>
      if expected.Action? then d.(actionCorrect := c.actionCorrect + 1) else d.(falseActions := c.falseActions + 1)
  }

  /** How many ticks expected `e` and were decided `d`. */
  function Count(log: seq<Tick>, e: Decision, d: Parsed): nat
    decreases |log|
  {
    if log == [] then 0 else
      Count(log[..|log| - 1], e, d) + (if log[|log| - 1].expected == e && log[|log| - 1].decided == d then 1 else 0)
  }

  /** Each counter is the number of ticks of its kind, and together they are all the ticks. */
  ghost predicate CountersOk(c: Counters, log: seq<Tick>) {
    && c.ticks == |log|
    && c.noopCorrect == Count(log, Noop, NoopReply)
    && c.actionCorrect == Count(log, Action, ActionReply)
    && c.falseActions == Count(log, Noop, ActionReply)
    && c.missedEvents == Count(log, Action, NoopReply)
    && c.malformed == Count(log, Noop, Malformed) + Count(log, Action, Malformed)
    && c.ticks == c.noopCorrect + c.actionCorrect + c.falseActions + c.missedEvents + c.malformed
  }

  lemma ObservedOk(c: Counters, log: seq<Tick>, t: Tick)
    requires CountersOk(c, log)
    ensures CountersOk(Observed(c, t.expected, t.decided), log + [t])
  {
    assert (log + [t])[..|log|] == log;
  }

  // ---- the loop as it runs ----

  class AlphaCounters {
    var ticks: nat
    var noopCorrect: nat
    var actionCorrect: nat
    var falseActions: nat
    var missedEvents: nat
    var malformed: nat

    constructor ()
      ensures Value() == Counters(0, 0, 0, 0, 0, 0)
    {
      ticks, noopCorrect, actionCorrect, falseActions, missedEvents, malformed := 0, 0, 0, 0, 0, 0;
    }

    function Value(): Counters
      reads this
    {
      Counters(ticks, noopCorrect, actionCorrect, falseActions, missedEvents, malformed)
    }

    method Observe(expected: Decision, decided: Parsed)
      modifies this
      ensures Value() == Observed(old(Value()), expected, decided)
    {
      ticks := ticks + 1;
      match (expected, decided) {
        case (Noop, NoopReply) => noopCorrect := noopCorrect + 1;
        case (Action, ActionReply) => actionCorrect := actionCorrect + 1;
        case (Noop, ActionReply) => falseActions := falseActions + 1;
        case (Action, NoopReply) => missedEvents := missedEvents + 1;
        case (_, Malformed) => malformed := malformed + 1;
      }
    }
  }

  class Session {
    const m: Model
    var ctx: seq<int>

    constructor (model: Model)
      ensures m == model && ctx == []
    {
      m := model;
      ctx := [];
    }

    function Position(): nat
      reads this
    {
      |ctx|
    }

    /** prefill_chunk and decode_step: append tokens unless the engine refuses. */
    method Append(tokens: seq<int>) returns (ok: bool)
      modifies this
      ensures ok == !m.fails(old(ctx) + tokens)
      ensures ctx == if ok then old(ctx) + tokens else old(ctx)
    {
      ok := !m.fails(ctx + tokens);
      if ok { ctx := ctx + tokens; }
    }

    method Rewind(n: nat)
      requires n <= |ctx|
      modifies this
      ensures ctx == old(ctx)[..|old(ctx)| - n]
    {
      ctx := ctx[..|ctx| - n];
    }
  }

  /** decode_decision. */
  method DecodeDecision(s: Session, frame: seq<int>) returns (raw: Option<bytes>)
    modifies s
    ensures raw.Some? <==> Decide(s.m, old(s.ctx), frame).Some?
    ensures raw.Some? ==> Decide(s.m, old(s.ctx), frame) == Some(Outcome(raw.value, s.ctx))
  {
    if frame == [] { return Some([]); }
    var ok := s.Append(frame);
    if !ok { return None; }
    var text: bytes := [];
    var i := 0;
    while i < MAX_DECISION_TOKENS
      invariant 0 <= i <= MAX_DECISION_TOKENS
      invariant Steps(s.m, s.ctx, text, MAX_DECISION_TOKENS - i) == Decide(s.m, old(s.ctx), frame)
    {
      var next := s.m.next(s.ctx);
      if next in s.m.eos { break; }
      text := text + s.m.piece(next);
      if Complete(text) { break; }
      ok := s.Append([next]);
      if !ok { return None; }
      i := i + 1;
    }
    raw := Some(text);
  }

  /** An engine failure on some tick ends the whole run. */
  lemma {:induction false} TapeStuck(m: Model, ctx: seq<int>, tape: seq<Event>, k: nat, prune: bool)
    requires k <= |tape| && Ticks(m, ctx, tape[..k], prune).None?
    ensures Ticks(m, ctx, tape, prune).None?
    decreases |tape| - k
  {
    if k == |tape| {
      assert tape[..k] == tape;
    } else {
      assert tape[..k + 1][..k] == tape[..k];
      TapeStuck(m, ctx, tape, k + 1, prune);
    }
  }

  /** The tick loop of run_kairos_alpha, after the contract is in the session. */
  method RunTicks(s: Session, tape: seq<Event>, prune: bool) returns (log: seq<Tick>, counters: AlphaCounters, ok: bool)
    modifies s
    ensures fresh(counters)
    ensures ok <==> Ticks(s.m, old(s.ctx), tape, prune).Some?
    ensures ok ==> Ticks(s.m, old(s.ctx), tape, prune) == Some(Run(log, s.ctx))
    ensures ok ==> CountersOk(counters.Value(), log)
  {
    counters := new AlphaCounters();
    log, ok := [], true;
    for k := 0 to |tape|
      invariant fresh(counters)
      invariant Ticks(s.m, old(s.ctx), tape[..k], prune) == Some(Run(log, s.ctx))
      invariant CountersOk(counters.Value(), log)
    {
      assert tape[..k + 1][..k] == tape[..k];
      var ev, prePos := tape[k], s.Position();
      ghost var before := s.ctx;
      var raw := DecodeDecision(s, ev.frame);
      if raw.None? {
        TapeStuck(s.m, old(s.ctx), tape, k + 1, prune);
        return log, counters, false;
      }
      DecideExtends(s.m, before, ev.frame);
      var decided := Parse(raw.value);
      ghost var c := counters.Value();
      counters.Observe(ev.expected, decided);
      if prune && decided.NoopReply? {
        var cur := s.Position();
        if cur > prePos { s.Rewind(cur - prePos); }
        assert s.ctx == before;
      }
      var tick := Tick(ev.idx, ev.expected, decided, raw.value, s.Position());
      ObservedOk(c, log, tick);
      log := log + [tick];
    }
    assert tape[..|tape|] == tape;
  }
}
