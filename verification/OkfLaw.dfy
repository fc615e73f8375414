/**
 * What the concept file of an episode says (tools/sp_daemon/src/recall.rs): the lines that are written, and
 * for any file the policy that is read, from its lines.
 */
module OkfLaw {
  import opened Common
  import opened OkfText
  import opened Okf

  // ---- what is written ----

  function DeclineLines(memClass: string): seq<string> {
    if memClass == "private-secret"
    then ["mem_decline_when: " + ("[" + ("zero-inference" + "," + (" " + "attribute-absent")) + "]"),
          "mem_decline_message: " + DECLINE_MESSAGE]
    else []
  }

  /** The lines with keys. */
  function EntryLines(title: string, memClass: string, name: string, delivery: string): seq<string> {
    ["type: memory", "title: " + title, "description: " + title]
    + (["tags: [mem-okf, episode, " + memClass + "]"]
    + (["sp_status: ACTIVE", "mem_kind: episode"]
    + (["mem_addr: " + name, "mem_class: " + memClass, "mem_delivery: " + delivery,
        "mem_authority: " + Authority(memClass)] + DeclineLines(memClass))))
  }

  /** The file before its text. */
  function Header(title: string, memClass: string, name: string, delivery: string): seq<string> {
    ["---"] + EntryLines(title, memClass, name, delivery) + ["---", ""]
  }

  /** The title is the text's first sixty characters with spaces for line feeds. */
  predicate IsTitle(text: string, title: string) {
    && |title| == Min(60, |text|)
    && forall i | 0 <= i < |title| :: title[i] == if text[i] == '\n' then ' ' else text[i]
  }

  lemma OnePair(key: string, value: string, head: string)
    requires head == key + [':', ' ']
    ensures KeyLines([(key, value)]) == [head + value]
  {
    assert [(key, value)][1..] == [];
  }

  lemma TwoPairs(a: (string, string), b: (string, string), headA: string, headB: string)
    requires headA == a.0 + [':', ' '] && headB == b.0 + [':', ' ']
    ensures KeyLines([a, b]) == [headA + a.1, headB + b.1]
  {
    OnePair(a.0, a.1, headA);
    OnePair(b.0, b.1, headB);
    KeyLinesConcat([a], [b]);
    assert [a, b] == [a] + [b];
  }

  lemma TopLines(title: string)
    ensures KeyLines([("type", "memory"), ("title", title), ("description", title)])
         == ["type: memory", "title: " + title, "description: " + title]
  {
    var a, b, c := ("type", "memory"), ("title", title), ("description", title);
    OnePair(a.0, a.1, "type: ");
    assert "type: " + "memory" == "type: memory";
    TwoPairs(b, c, "title: ", "description: ");
    KeyLinesConcat([a], [b, c]);
    assert [a, b, c] == [a] + [b, c];
  }

  lemma StatusLines()
    ensures KeyLines(STATUS) == ["sp_status: ACTIVE", "mem_kind: episode"]
  {
    TwoPairs(STATUS[0], STATUS[1], "sp_status: ", "mem_kind: ");
    assert "sp_status: " + "ACTIVE" == "sp_status: ACTIVE" && "mem_kind: " + "episode" == "mem_kind: episode";
  }

  lemma TagsLine(memClass: string)
    ensures KeyLines([("tags", Tags(memClass))]) == ["tags: [mem-okf, episode, " + memClass + "]"]
  {
    OnePair("tags", Tags(memClass), "tags: ");
    assert "tags: " + "[mem-okf, episode, " == "tags: [mem-okf, episode, ";
    assert "tags: " + Tags(memClass) == ("tags: " + "[mem-okf, episode, ") + memClass + "]";
  }

  lemma {:induction false} KeyLinesConcat(a: seq<(string, string)>, b: seq<(string, string)>)
    ensures KeyLines(a + b) == KeyLines(a) + KeyLines(b)
  {
    if a == [] {
      assert a + b == b;
    } else {
      assert (a + b)[1..] == a[1..] + b;
      KeyLinesConcat(a[1..], b);
    }
  }

  lemma DeclineKeys(memClass: string)
    ensures KeyLines(DeclinePairs(memClass)) == DeclineLines(memClass)
  {
    if memClass == PRIVATE {
      var list := ("mem_decline_when", ListValue(ZERO_INFERENCE, ATTRIBUTE_ABSENT));
      var message := ("mem_decline_message", DECLINE_MESSAGE);
      assert DeclinePairs(memClass) == [list, message];
      TwoPairs(list, message, "mem_decline_when: ", "mem_decline_message: ");
    }
  }

  lemma ClassLines(memClass: string, delivery: string)
    ensures KeyLines(ClassPairs(memClass, delivery))
         == ["mem_class: " + memClass, "mem_delivery: " + delivery, "mem_authority: " + Authority(memClass)]
            + DeclineLines(memClass)
  {
    var c, d, a := ("mem_class", memClass), ("mem_delivery", delivery), ("mem_authority", Authority(memClass));
    OnePair(c.0, c.1, "mem_class: ");
    OnePair(d.0, d.1, "mem_delivery: ");
    OnePair(a.0, a.1, "mem_authority: ");
    DeclineKeys(memClass);
    KeyLinesConcat([a], DeclinePairs(memClass));
    KeyLinesConcat([d], [a] + DeclinePairs(memClass));
    KeyLinesConcat([c], [d] + ([a] + DeclinePairs(memClass)));
  }

  lemma BelowLines(memClass: string, name: string, delivery: string)
    ensures KeyLines([("mem_addr", name)] + ClassPairs(memClass, delivery))
         == ["mem_addr: " + name, "mem_class: " + memClass, "mem_delivery: " + delivery,
             "mem_authority: " + Authority(memClass)] + DeclineLines(memClass)
  {
    OnePair("mem_addr", name, "mem_addr: ");
    ClassLines(memClass, delivery);
    KeyLinesConcat([("mem_addr", name)], ClassPairs(memClass, delivery));
  }

  /** A concept file is its header, the text and a line feed. */
  lemma WrittenFile(text: string, memClass: string, name: string, delivery: string)
    ensures IsTitle(text, Title(text))
    ensures Write(text, memClass, name, delivery)
         == Unlines(Header(Title(text), memClass, name, delivery)) + (text + "\n")
  {
    EntryLinesAre(text, memClass, name, delivery);
  }

  lemma EntryLinesAre(text: string, memClass: string, name: string, delivery: string)
    ensures KeyLines(Pairs(text, memClass, name, delivery)) == EntryLines(Title(text), memClass, name, delivery)
  {
    var below := [("mem_addr", name)] + ClassPairs(memClass, delivery);
    TopLines(Title(text));
    TagsLine(memClass);
    StatusLines();
    BelowLines(memClass, name, delivery);
    KeyLinesConcat(STATUS, below);
    KeyLinesConcat([("tags", Tags(memClass))], STATUS + below);
    KeyLinesConcat(TopPairs(text), [("tags", Tags(memClass))] + (STATUS + below));
  }

  // ---- what is read ----

  /** The line is the key, a colon, the first one, and the value; white margins aside. */
  predicate EntryAt(line: string, i: nat, key: string, value: string) {
    && i < |line| && line[i] == ':' && ':' !in line[..i]
    && Trim(line[..i]) == key && Trim(line[i + 1..]) == value
  }

  predicate Enters(line: string, key: string, value: string) {
    exists i: nat :: i < |line| && EntryAt(line, i, key, value)
  }

  ghost predicate NoneEnters(block: seq<string>, key: string) {
    forall j, v | 0 <= j < |block| :: !Enters(block[j], key, v)
  }

  /** The last line of the block with the key has the value. */
  ghost predicate LastEnters(block: seq<string>, key: string, value: string) {
    exists j: nat :: j < |block| && Enters(block[j], key, value) && NoneEnters(block[j + 1..], key)
  }

  ghost predicate IsValue(block: seq<string>, key: string, value: Option<string>) {
    if value.Some? then LastEnters(block, key, value.value) else NoneEnters(block, key)
  }

  /** The first fence is line a, and the next one line b, or there is none. */
  predicate IsBlock(lines: seq<string>, a: nat, b: nat) {
    && a < b <= |lines| && Trim(lines[a]) == "---" && (b < |lines| ==> Trim(lines[b]) == "---")
    && forall i | 0 <= i < b && i != a :: Trim(lines[i]) != "---"
  }

  predicate Bracket(c: char) { c == '[' || c == ']' }

  predicate Brackets(s: string) { forall i | 0 <= i < |s| :: Bracket(s[i]) }

  predicate NoBracketEnds(s: string) { s == [] || (!Bracket(s[0]) && !Bracket(s[|s| - 1])) }

  function JoinedBy(parts: seq<string>): string {
    if parts == [] then [] else if |parts| == 1 then parts[0] else parts[0] + [','] + JoinedBy(parts[1..])
  }

  /** The items of a list: what is between its commas, without the brackets around and without blank items. */
  ghost predicate IsItems(value: string, items: seq<string>) {
    exists x, core, y, parts :: ItemsBy(value, items, x, core, y, parts)
  }

  predicate ItemsBy(value: string, items: seq<string>, x: string, core: string, y: string, parts: seq<string>) {
    && value == x + core + y && Brackets(x) && Brackets(y) && NoBracketEnds(core)
    && parts != [] && core == JoinedBy(parts) && (forall j | 0 <= j < |parts| :: ',' !in parts[j])
    && items == TrimmedNonempty(parts)
  }

  /** The policy of a block: a class is required, the delivery defaults to that of the class. */
  ghost predicate IsPolicy(block: seq<string>, p: Option<Policy>) {
    exists c, d, w, m :: PolicyBy(block, p, c, d, w, m)
  }

  ghost predicate PolicyBy(block: seq<string>, p: Option<Policy>, c: Option<string>, d: Option<string>,
                           w: Option<string>, m: Option<string>) {
    && IsValue(block, "mem_class", c) && IsValue(block, "mem_delivery", d)
    && IsValue(block, "mem_decline_when", w) && IsValue(block, "mem_decline_message", m)
    && (p.Some? <==> c.Some?)
    && (p.Some? ==>
          && p.value.memClass == c.value
          && p.value.delivery == (if d.Some? then d.value else ClassDefaultDelivery(c.value))
          && (if w.Some? then IsItems(w.value, p.value.declineWhen) else p.value.declineWhen == [])
          && p.value.declineMessage == if m.Some? then m.value else "")
  }

  ghost predicate ReadLaw(text: string, p: Option<Policy>) {
    var lines := Lines(text);
    if forall i | 0 <= i < |lines| :: Trim(lines[i]) != "---" then p == None
    else exists a: nat, b: nat :: IsBlock(lines, a, b) && IsPolicy(lines[a + 1..b], p)
  }

  // ---- that the reader keeps it ----

  function ValueIn(line: string, key: string): Option<string> {
    match SplitOnce(line)
    case None => None
    case Some(kv) => if Trim(kv.0) == key then Some(Trim(kv.1)) else None
  }

  lemma ValueIs(line: string, key: string)
    ensures match ValueIn(line, key)
            case None => forall v :: !Enters(line, key, v)
            case Some(v) => Enters(line, key, v)
  {
    var i := IndexOf(line, ':');
    if i < |line| { assert EntryAt(line, i, Trim(line[..i]), Trim(line[i + 1..])); }
    forall v, x: nat | x < |line| && EntryAt(line, x, key, v) ensures x == i && ValueIn(line, key) == Some(v) {
      FirstColon(line, x);
    }
  }

  lemma FirstColon(line: string, x: nat)
    requires x < |line| && line[x] == ':' && ':' !in line[..x]
    ensures IndexOf(line, ':') == x
  {
    forall y | 0 <= y < x ensures line[y] != ':' { assert line[..x][y] in line[..x]; }
  }

  function Last(block: seq<string>, key: string): Option<string> {
    if block == [] then None else
      var later := Last(block[1..], key);
      if later.Some? then later else ValueIn(block[0], key)
  }

  lemma {:induction false} LastIsValue(block: seq<string>, key: string)
    ensures IsValue(block, key, Last(block, key))
  {
    if block != [] {
      LastIsValue(block[1..], key);
      ValueIs(block[0], key);
      ValueShifts(block, key, Last(block[1..], key));
    }
  }

  lemma ValueShifts(block: seq<string>, key: string, later: Option<string>)
    requires block != [] && IsValue(block[1..], key, later)
    ensures later.Some? ==> IsValue(block, key, later)
    ensures later.None? ==> forall v :: Enters(block[0], key, v) ==> LastEnters(block, key, v)
    ensures later.None? && (forall v :: !Enters(block[0], key, v)) ==> NoneEnters(block, key)
  {
    var rest := block[1..];
    if later.Some? {
      var j: nat :| j < |rest| && Enters(rest[j], key, later.value) && NoneEnters(rest[j + 1..], key);
      assert block[j + 1] == rest[j] && block[j + 2..] == rest[j + 1..];
    } else {
      assert block[0 + 1..] == rest;
      forall j, v | 0 < j < |block| ensures !Enters(block[j], key, v) { assert block[j] == rest[j - 1]; }
    }
  }

  function Items(value: string): seq<string> { TrimmedNonempty(Split(DropBrackets(value))) }

  /** The fields with those of the block over them. */
  function Over(f: Fields, block: seq<string>): Fields {
    Fields(Later(f.memClass, Last(block, "mem_class")), Later(f.delivery, Last(block, "mem_delivery")),
           (match Last(block, "mem_decline_when") case None => f.declineWhen case Some(v) => Items(v)),
           (match Last(block, "mem_decline_message") case None => f.declineMessage case Some(v) => v))
  }

  function Later(was: Option<string>, now: Option<string>): Option<string> { if now.Some? then now else was }

  lemma KeysApart()
    ensures "mem_class" != "mem_delivery" && "mem_class" != "mem_decline_when" && "mem_class" != "mem_decline_message"
    ensures "mem_delivery" != "mem_decline_when" && "mem_delivery" != "mem_decline_message"
    ensures "mem_decline_when" != "mem_decline_message"
  {
    assert |"mem_class"| == 9 && |"mem_delivery"| == 12 && |"mem_decline_when"| == 16 && |"mem_decline_message"| == 19;
  }

  lemma TakeIsOver(f: Fields, line: string, block: seq<string>)
    ensures Over(TakeLine(f, line), block) == Over(f, [line] + block)
  {
    KeysApart();
    assert ([line] + block)[1..] == block;
  }

  lemma {:induction false} ReadIsOver(f: Fields, lines: seq<string>, b: nat)
    requires b <= |lines| && (b < |lines| ==> IsFence(lines[b])) && forall i | 0 <= i < b :: !IsFence(lines[i])
    ensures ReadFields(f, true, lines) == Over(f, lines[..b])
    decreases b
  {
    if b > 0 {
      ReadIsOver(TakeLine(f, lines[0]), lines[1..], b - 1);
      TakeIsOver(f, lines[0], lines[1..][..b - 1]);
      assert [lines[0]] + lines[1..][..b - 1] == lines[..b];
    }
  }

  lemma {:induction false} SkipToFence(lines: seq<string>, a: nat)
    requires a <= |lines| && forall i | 0 <= i < a :: !IsFence(lines[i])
    ensures ReadFields(NOTHING, false, lines) == ReadFields(NOTHING, false, lines[a..])
    decreases a
  {
    if a == 0 {
      assert lines[0..] == lines;
    } else {
      SkipToFence(lines[1..], a - 1);
      assert lines[1..][a - 1..] == lines[a..];
    }
  }

  lemma {:induction false} DropSplits(s: string) returns (x: string, y: string)
    ensures s == x + DropBrackets(s) + y && Brackets(x) && Brackets(y) && NoBracketEnds(DropBrackets(s))
    decreases |s|
  {
    x, y := [], [];
    if s != [] && Bracket(s[0]) {
      var v, w := DropSplits(s[1..]);
      x, y := [s[0]] + v, w;
      assert s == x + DropBrackets(s) + y;
    } else if s != [] && Bracket(s[|s| - 1]) {
      var v, w := DropSplits(s[..|s| - 1]);
      x, y := v, w + [s[|s| - 1]];
      assert s == x + DropBrackets(s) + y;
    }
  }

  lemma {:induction false} SplitJoins(s: string)
    ensures Split(s) != [] && JoinedBy(Split(s)) == s && forall j | 0 <= j < |Split(s)| :: ',' !in Split(s)[j]
    decreases |s|
  {
    var i := IndexOf(s, ',');
    if i < |s| {
      SplitJoins(s[i + 1..]);
      JoinedCons(s[..i], Split(s[i + 1..]));
      assert s == s[..i] + [','] + s[i + 1..];
    }
  }

  lemma JoinedCons(part: string, parts: seq<string>)
    requires ',' !in part && parts != [] && forall j | 0 <= j < |parts| :: ',' !in parts[j]
    ensures JoinedBy([part] + parts) == part + [','] + JoinedBy(parts)
    ensures forall j | 0 <= j < |[part] + parts| :: ',' !in ([part] + parts)[j]
  {
    assert ([part] + parts)[1..] == parts;
  }

  lemma ItemsAre(value: string)
    ensures IsItems(value, Items(value))
  {
    var x, y := DropSplits(value);
    SplitJoins(DropBrackets(value));
    assert ItemsBy(value, Items(value), x, DropBrackets(value), y, Split(DropBrackets(value)));
  }

  lemma OverIsPolicy(block: seq<string>)
    ensures IsPolicy(block, PolicyOf(Over(NOTHING, block)))
  {
    var c, d := Last(block, "mem_class"), Last(block, "mem_delivery");
    var w, m := Last(block, "mem_decline_when"), Last(block, "mem_decline_message");
    LastIsValue(block, "mem_class");
    LastIsValue(block, "mem_delivery");
    LastIsValue(block, "mem_decline_when");
    LastIsValue(block, "mem_decline_message");
    if w.Some? { ItemsAre(w.value); }
    assert PolicyBy(block, PolicyOf(Over(NOTHING, block)), c, d, w, m);
  }

  lemma NextFence(lines: seq<string>, a: nat) returns (b: nat)
    requires a <= |lines|
    ensures a <= b <= |lines| && (b < |lines| ==> IsFence(lines[b])) && forall i | a <= i < b :: !IsFence(lines[i])
  {
    b := a;
    while b < |lines| && !IsFence(lines[b])
      invariant a <= b <= |lines| && forall i | a <= i < b :: !IsFence(lines[i])
    {
      b := b + 1;
    }
  }

  /** Whatever the file, the policy read from it is the one of its first fenced block. */
  lemma ParseKeepsLaw(text: string)
    ensures ReadLaw(text, Parsed(text))
  {
    var lines := Lines(text);
    var a := NextFence(lines, 0);
    SkipToFence(lines, a);
    if a < |lines| { BlockIsPolicy(lines, a); }
  }

  lemma OpensBlock(lines: seq<string>, a: nat)
    requires a < |lines| && IsFence(lines[a])
    ensures ReadFields(NOTHING, false, lines[a..]) == ReadFields(NOTHING, true, lines[a + 1..])
  {
    assert lines[a..][0] == lines[a] && lines[a..][1..] == lines[a + 1..];
  }

  lemma BlockIsPolicy(lines: seq<string>, a: nat)
    requires a < |lines| && IsFence(lines[a]) && forall i | 0 <= i < a :: !IsFence(lines[i])
    ensures exists b: nat ::
              IsBlock(lines, a, b) && IsPolicy(lines[a + 1..b], PolicyOf(ReadFields(NOTHING, false, lines[a..])))
  {
    var b := NextFence(lines, a + 1);
    OpensBlock(lines, a);
    BlockRead(lines, a, b);
    OverIsPolicy(lines[a + 1..b]);
    assert IsBlock(lines, a, b);
  }

  lemma BlockRead(lines: seq<string>, a: nat, b: nat)
    requires a < b <= |lines| && (b < |lines| ==> IsFence(lines[b])) && forall i | a < i < b :: !IsFence(lines[i])
    ensures ReadFields(NOTHING, true, lines[a + 1..]) == Over(NOTHING, lines[a + 1..b])
  {
    ReadIsOver(NOTHING, lines[a + 1..], b - a - 1);
    assert lines[a + 1..][..b - a - 1] == lines[a + 1..b];
  }

  // ---- the body ----

  /** There is a first fence, line a, and a second one, line b. */
  predicate Fenced(lines: seq<string>, a: nat, b: nat) { b < |lines| && IsBlock(lines, a, b) }

  lemma {:induction false} SkipPlain(fences: nat, lines: seq<string>, i: nat)
    requires fences < 2 && i <= |lines| && forall x | 0 <= x < i :: !IsFence(lines[x])
    ensures AfterFences(fences, lines) == AfterFences(fences, lines[i..])
    decreases i
  {
    if i == 0 {
      assert lines[0..] == lines;
    } else {
      SkipPlain(fences, lines[1..], i - 1);
      assert lines[1..][i - 1..] == lines[i..];
    }
  }

  /** From line i on, the next fence is line j, or there is none. */
  lemma PastNextFence(fences: nat, lines: seq<string>, i: nat, j: nat)
    requires fences < 2 && i <= j <= |lines| && (j < |lines| ==> IsFence(lines[j]))
    requires forall x | i <= x < j :: !IsFence(lines[x])
    ensures AfterFences(fences, lines[i..])
         == if j < |lines| then AfterFences(fences + 1, lines[j + 1..]) else (fences, [])
  {
    SkipPlain(fences, lines[i..], j - i);
    assert lines[i..][j - i..] == lines[j..];
    if j < |lines| { assert lines[j..][0] == lines[j] && lines[j..][1..] == lines[j + 1..]; }
  }

  lemma SecondFence(lines: seq<string>, a: nat, b: nat)
    requires Fenced(lines, a, b)
    ensures AfterFences(0, lines) == AfterFences(2, lines[b + 1..])
  {
    PastNextFence(0, lines, 0, a);
    PastNextFence(1, lines, a + 1, b);
    assert lines[0..] == lines;
  }

  /** With two fences the body is what follows the second, line by line. */
  lemma BodyAfterFences(text: string, a: nat, b: nat)
    requires Fenced(Lines(text), a, b)
    ensures BodyOf(text) == Trim(Unlines(Lines(text)[b + 1..]))
  {
    SecondFence(Lines(text), a, b);
  }

  lemma FencesFound(lines: seq<string>) returns (a: nat, b: nat)
    ensures AfterFences(0, lines).0 == 2 ==> Fenced(lines, a, b)
  {
    a := NextFence(lines, 0);
    b := a;
    PastNextFence(0, lines, 0, a);
    assert lines[0..] == lines;
    if a < |lines| {
      b := NextFence(lines, a + 1);
      PastNextFence(1, lines, a + 1, b);
    }
  }

  /** Otherwise it is the whole file. */
  lemma BodyWithoutFences(text: string)
    requires forall a: nat, b: nat :: !Fenced(Lines(text), a, b)
    ensures BodyOf(text) == Trim(text)
  {
    var a, b := FencesFound(Lines(text));
  }
}
