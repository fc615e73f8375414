/**
 * The memory concept file of an episode (tools/sp_daemon/src/recall.rs): the frontmatter writer,
 * the policy parser and the body reader.
 */
module Okf {
  import opened Common
  import opened OkfText

  datatype Policy = Policy(memClass: string, delivery: string, declineWhen: seq<string>, declineMessage: string)

  const FENCE: string := "---"
  const PRIVATE: string := "private-secret"
  const DECLINE_MESSAGE: string :=
    "I have a record " + "for that entity, " + "but it does not " + "include that " + "specific detail."
  const ZERO_INFERENCE: string := "zero-inference"
  const ATTRIBUTE_ABSENT: string := "attribute-absent"
  const DECLINE_WHEN: seq<string> := [ZERO_INFERENCE, ATTRIBUTE_ABSENT]

  function ClassDefaultDelivery(memClass: string): string {
    if memClass == PRIVATE then "attr-gate-strict"
    else if memClass == "counterfact" || memClass == "same-template" then "systemecho"
    else if memClass in ["fact", "preference", "persona", "episodic-event"] then "system"
    else "recite"
  }

  /** MemPolicy::from_class; `delivery` is what the live class map says. */
  function FromClass(memClass: string, delivery: string): Policy {
    if memClass == PRIVATE then Policy(memClass, delivery, DECLINE_WHEN, DECLINE_MESSAGE)
    else Policy(memClass, delivery, [], "")
  }

  // ---- the writer ----

  function Authority(memClass: string): string {
    if memClass == PRIVATE then "private"
    else if memClass in ["persona", "preference", "fact", "episodic-event"] then "supplements"
    else "overrides-prior"
  }

  /** The first sixty characters with line feeds as spaces. */
  function Title(text: string): (t: string)
    ensures OneLine(t)
  {
    var head := if |text| <= 60 then text else text[..60];
    seq(|head|, i requires 0 <= i < |head| => if head[i] == NL then ' ' else head[i])
  }

  function KeyLine(key: string, value: string): string { key + [':', ' '] + value }

  /** The keys and values before the tags. */
  function TopPairs(text: string): seq<(string, string)> {
    [("type", "memory"), ("title", Title(text)), ("description", Title(text))]
  }

  function Tags(memClass: string): string { "[mem-okf, episode, " + memClass + "]" }

  const STATUS: seq<(string, string)> := [("sp_status", "ACTIVE"), ("mem_kind", "episode")]

  /** Two conditions joined as a bracketed list. */
  function ListValue(a: string, b: string): string { ['['] + (a + [','] + ([' '] + b)) + [']'] }

  function DeclinePairs(memClass: string): seq<(string, string)> {
    if memClass == PRIVATE then DeclineEntry(ZERO_INFERENCE, ATTRIBUTE_ABSENT, DECLINE_MESSAGE) else []
  }

  function DeclineEntry(a: string, b: string, message: string): seq<(string, string)> {
    [("mem_decline_when", ListValue(a, b)), ("mem_decline_message", message)]
  }

  function ClassPairs(memClass: string, delivery: string): seq<(string, string)> {
    [("mem_class", memClass)] + ([("mem_delivery", delivery)]
    + ([("mem_authority", Authority(memClass))] + DeclinePairs(memClass)))
  }

  /** The frontmatter as keys and values. */
  function Pairs(text: string, memClass: string, name: string, delivery: string): seq<(string, string)> {
    TopPairs(text) + ([("tags", Tags(memClass))] + (STATUS + ([("mem_addr", name)] + ClassPairs(memClass, delivery))))
  }

  function KeyLines(pairs: seq<(string, string)>): (r: seq<string>)
    ensures |r| == |pairs|
  {
    if pairs == [] then [] else [KeyLine(pairs[0].0, pairs[0].1)] + KeyLines(pairs[1..])
  }

  /** The lines between and including the fences, and the empty line after them. */
  function FrontLines(pairs: seq<(string, string)>): seq<string> {
    [FENCE] + KeyLines(pairs) + [FENCE, []]
  }

  /** write_episode_okf. */
  function Write(text: string, memClass: string, name: string, delivery: string): string {
    Unlines(FrontLines(Pairs(text, memClass, name, delivery))) + (text + [NL])
  }

  // ---- the policy parser ----

  predicate IsFence(line: string) { Trim(line) == FENCE }

  function SplitOnce(line: string): Option<(string, string)> {
    var i := IndexOf(line, ':');
    if i == |line| then None else Some((line[..i], line[i + 1..]))
  }

  function Split(s: string): seq<string>
    decreases |s|
  {
    var i := IndexOf(s, ',');
    if i == |s| then [s] else [s[..i]] + Split(s[i + 1..])
  }

  function DropBrackets(s: string): string
    decreases |s|
  {
    if s != [] && (s[0] == '[' || s[0] == ']') then DropBrackets(s[1..])
    else if s != [] && (s[|s| - 1] == '[' || s[|s| - 1] == ']') then DropBrackets(s[..|s| - 1])
    else s
  }

  function TrimmedNonempty(parts: seq<string>): seq<string> {
    if parts == [] then [] else (if Trim(parts[0]) == [] then [] else [Trim(parts[0])]) + TrimmedNonempty(parts[1..])
  }

  datatype Fields = Fields(memClass: Option<string>, delivery: Option<string>, declineWhen: seq<string>,
                           declineMessage: string)

  const NOTHING: Fields := Fields(None, None, [], "")

  function SetField(f: Fields, key: string, value: string): Fields {
    if key == "mem_class" then f.(memClass := Some(value))
    else if key == "mem_delivery" then f.(delivery := Some(value))
    else if key == "mem_decline_when" then f.(declineWhen := TrimmedNonempty(Split(DropBrackets(value))))
    else if key == "mem_decline_message" then f.(declineMessage := value)
    else f
  }

  function TakeLine(f: Fields, line: string): Fields {
    match SplitOnce(line)
    case None => f
    case Some(kv) => SetField(f, Trim(kv.0), Trim(kv.1))
  }

  /** The fields read from the lines on, `open` when the first fence is behind. */
  function ReadFields(f: Fields, open: bool, lines: seq<string>): Fields
    decreases |lines|
  {
    if lines == [] then f
    else if IsFence(lines[0]) then (if open then f else ReadFields(f, true, lines[1..]))
    else if !open then ReadFields(f, false, lines[1..])
    else ReadFields(TakeLine(f, lines[0]), true, lines[1..])
  }

  function PolicyOf(f: Fields): Option<Policy> {
    match f.memClass
    case None => None
    case Some(c) =>
      var d := match f.delivery case Some(x) => x case None => ClassDefaultDelivery(c);
      Some(Policy(c, d, f.declineWhen, f.declineMessage))
  }

  /** parse_okf_policy. */
  method ParsePolicy(text: string) returns (p: Option<Policy>)
    ensures p == Parsed(text)
  {
    var lines, f, open, i := Lines(text), NOTHING, false, 0;
    while i < |lines|
      invariant 0 <= i <= |lines|
      invariant ReadFields(f, open, lines[i..]) == ReadFields(NOTHING, false, Lines(text))
    {
      var line := lines[i];
      assert lines[i..][0] == line && lines[i..][1..] == lines[i + 1..];
      if IsFence(line) {
        if open { break; }
        open := true;
      } else if open {
        f := TakeLine(f, line);
      }
      i := i + 1;
    }
    p := PolicyOf(f);
  }

  /** What parse_okf_policy returns. */
  function Parsed(text: string): Option<Policy> { PolicyOf(ReadFields(NOTHING, false, Lines(text))) }

  // ---- the body reader ----

  /** Fences still to come, at most two, and the lines after the second. */
  function AfterFences(fences: nat, lines: seq<string>): (nat, seq<string>)
    requires fences <= 2
    decreases |lines|
  {
    if lines == [] || fences == 2 then (fences, lines)
    else AfterFences(if IsFence(lines[0]) then fences + 1 else fences, lines[1..])
  }

  function BodyOf(text: string): string {
    var r := AfterFences(0, Lines(text));
    Trim(if r.0 == 2 then Unlines(r.1) else text)
  }

  lemma {:induction false} UnlinesSnoc(ls: seq<string>, l: string)
    ensures Unlines(ls + [l]) == Unlines(ls) + l + [NL]
  {
    if ls != [] {
      assert (ls + [l])[1..] == ls[1..] + [l];
      UnlinesSnoc(ls[1..], l);
    }
  }

  /**
   * okf_body. The comment in the source promises to strip a leading "The user said: ", which
   * its code does not do.
   */
  method Body(text: string) returns (b: string)
    ensures b == BodyOf(text)
  {
    var lines, fences, body := Lines(text), 0, "";
    ghost var start := 0;
    for i := 0 to |lines|
      invariant Reading(lines, fences, body, start, i)
    {
      BodyNext(lines, fences, body, start, i);
      if IsFence(lines[i]) && fences < 2 {
        fences := fences + 1;
        start := i + 1;
      } else if fences >= 2 {
        body := body + lines[i] + [NL];
      }
    }
    BodyDone(lines, fences, body, start);
    b := Trim(if fences >= 2 then body else text);
  }

  /** The state of the body loop before line i. */
  ghost predicate Reading(lines: seq<string>, fences: nat, body: string, start: nat, i: nat) {
    && fences <= 2 && start <= i <= |lines|
    && (fences < 2 ==> AfterFences(fences, lines[i..]) == AfterFences(0, lines) && body == "")
    && (fences == 2 ==> AfterFences(0, lines) == (2, lines[start..]) && body == Unlines(lines[start..i]))
  }

  lemma BodyDone(lines: seq<string>, fences: nat, body: string, start: nat)
    requires Reading(lines, fences, body, start, |lines|)
    ensures AfterFences(0, lines).0 == fences
    ensures fences == 2 ==> body == Unlines(AfterFences(0, lines).1)
  {
    if fences < 2 {
      NoLinesLeft(fences, lines[|lines|..]);
    } else {
      assert lines[start..|lines|] == lines[start..];
    }
  }

  lemma NoLinesLeft(fences: nat, rest: seq<string>)
    requires fences <= 2 && rest == []
    ensures AfterFences(fences, rest).0 == fences
  {}

  lemma BodyNext(lines: seq<string>, fences: nat, body: string, start: nat, i: nat)
    requires Reading(lines, fences, body, start, i) && i < |lines|
    ensures if IsFence(lines[i]) && fences < 2 then Reading(lines, fences + 1, body, i + 1, i + 1)
            else Reading(lines, fences, if fences == 2 then body + lines[i] + [NL] else body, start, i + 1)
  {
    assert lines[i..][0] == lines[i] && lines[i..][1..] == lines[i + 1..];
    if fences == 2 {
      UnlinesSnoc(lines[start..i], lines[i]);
      assert lines[start..i + 1] == lines[start..i] + [lines[i]];
    } else {
      assert lines[i + 1..i + 1] == [];
      var rest := lines[i + 1..];
      assert AfterFences(2, rest) == (2, rest);
    }
  }
}
