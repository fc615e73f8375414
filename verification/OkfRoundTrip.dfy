/**
 * What the readers make of a written concept file (tools/sp_daemon/src/recall.rs), for any text,
 * class, name and delivery. A value that holds a line feed spills over into further lines, which
 * the readers take for lines of their own.
 */
module OkfRoundTrip {
  import opened Common
  import opened OkfText
  import opened Okf

  // ---- the lines of a written file ----

  function First(value: string): string { value[..IndexOf(value, NL)] }

  /** The lines that a value puts below the line of its key. */
  function Spill(value: string): seq<string> {
    var i := IndexOf(value, NL);
    if i == |value| then [] else Lines(value[i + 1..] + [NL])
  }

  function PairLines(p: (string, string)): seq<string> { Lines(KeyLine(p.0, p.1) + [NL]) }

  function FileLines(pairs: seq<(string, string)>): seq<string> {
    if pairs == [] then [] else PairLines(pairs[0]) + FileLines(pairs[1..])
  }

  lemma LinesOne(l: string)
    requires OneLine(l)
    ensures Lines(l + [NL]) == [StripReturn(l)]
  {
    LinesHead(l, []);
    assert l + [NL] + [] == l + [NL];
  }

  lemma OneLineSplits(value: string)
    requires OneLine(value)
    ensures First(value) == value && Spill(value) == []
  {}

  lemma LineFeedSplits(value: string, i: nat)
    requires !OneLine(value) && i == IndexOf(value, NL)
    ensures i < |value| && First(value) == value[..i] && OneLine(value[..i])
    ensures value == value[..i] + [NL] + value[i + 1..] && Spill(value) == Lines(value[i + 1..] + [NL])
  {
    FeedInside(value, i);
    Around(value, i);
  }

  lemma FeedInside(value: string, i: nat)
    requires !OneLine(value) && i == IndexOf(value, NL)
    ensures i < |value| && value[i] == NL && OneLine(value[..i])
  {}

  lemma Around<T>(s: seq<T>, i: nat)
    requires i < |s|
    ensures s == s[..i] + [s[i]] + s[i + 1..]
  {}

  /** The lines of one key and value. */
  lemma PairForm(p: (string, string))
    requires OneLine(p.0)
    ensures PairLines(p) == [StripReturn(KeyLine(p.0, First(p.1)))] + Spill(p.1)
  {
    if OneLine(p.1) {
      var l := KeyLine(p.0, p.1);
      OneLineSplits(p.1);
      LinesOne(l);
      assert [StripReturn(l)] + [] == [StripReturn(l)];
    } else {
      var i := IndexOf(p.1, NL);
      LineFeedSplits(p.1, i);
      KeyLineSplits(p.0, p.1[..i], p.1[i + 1..]);
    }
  }

  lemma KeyLineSplits(key: string, first: string, more: string)
    requires OneLine(key) && OneLine(first)
    ensures Lines(KeyLine(key, first + [NL] + more) + [NL]) == [StripReturn(KeyLine(key, first))] + Lines(more + [NL])
  {
    assert KeyLine(key, first + [NL] + more) + [NL] == KeyLine(key, first) + [NL] + (more + [NL]);
    LinesHead(KeyLine(key, first), more + [NL]);
  }

  lemma {:induction false} FileLinesConcat(a: seq<(string, string)>, b: seq<(string, string)>)
    ensures FileLines(a + b) == FileLines(a) + FileLines(b)
  {
    if a == [] {
      assert a + b == b;
    } else {
      assert (a + b)[1..] == a[1..] + b;
      FileLinesConcat(a[1..], b);
      Assoc(PairLines(a[0]), FileLines(a[1..]), FileLines(b));
    }
  }

  lemma FileLinesOne(p: (string, string))
    ensures FileLines([p]) == PairLines(p)
  {
    assert [p][1..] == [];
    assert PairLines(p) + [] == PairLines(p);
  }

  lemma FileLinesCons(p: (string, string), more: seq<(string, string)>)
    ensures FileLines([p] + more) == PairLines(p) + FileLines(more)
  {
    FileLinesConcat([p], more);
    FileLinesOne(p);
  }

  lemma {:induction false} UnlinesEnds(ls: seq<string>)
    ensures Unlines(ls) == [] || Unlines(ls)[|Unlines(ls)| - 1] == NL
  {
    if ls != [] { UnlinesEnds(ls[1..]); }
  }

  lemma {:induction false} KeyLinesRead(pairs: seq<(string, string)>)
    ensures Lines(Unlines(KeyLines(pairs))) == FileLines(pairs)
  {
    if pairs != [] {
      var l, rest := KeyLine(pairs[0].0, pairs[0].1), KeyLines(pairs[1..]);
      assert KeyLines(pairs)[1..] == rest;
      KeyLinesRead(pairs[1..]);
      LinesConcat(l + [NL], Unlines(rest));
    }
  }

  lemma FenceFacts()
    ensures IsFence(FENCE) && StripReturn(FENCE) == FENCE && OneLine(FENCE)
    ensures Unlines([FENCE, []]) == FENCE + [NL] + ([] + [NL])
  {
    TrimBare(FENCE);
    assert [FENCE, []][1..] == [[]];
    var e: seq<string> := [[]];
    assert e[1..] == [] && Unlines(e) == [] + [NL] + [];
  }

  lemma FrontText(pairs: seq<(string, string)>)
    ensures Unlines(FrontLines(pairs)) == FENCE + [NL] + (Unlines(KeyLines(pairs)) + (FENCE + [NL] + [NL]))
  {
    var keys := KeyLines(pairs);
    FenceFacts();
    UnlinesConcat([FENCE] + keys, [FENCE, []]);
    UnlinesConcat([FENCE], keys);
    assert Unlines([FENCE]) == FENCE + [NL] + [];
    Assoc(FENCE + [NL], Unlines(keys), FENCE + [NL] + [NL]);
  }

  lemma EmptyFirst<T>(s: seq<T>)
    ensures [] + s == s
  {}

  lemma GapLine(tail: string)
    ensures Lines([NL] + tail) == [[]] + Lines(tail)
  {
    LinesHead([], tail);
    EmptyFirst([NL]);
    assert StripReturn([]) == [];
  }

  lemma TwoThenMore(x: string, y: string, more: seq<string>)
    ensures [x] + ([y] + more) == [x, y] + more
  {}

  /** A line, an empty line, and more text. */
  lemma LineAndGap(l: string, tail: string)
    requires OneLine(l)
    ensures Lines(l + [NL] + [NL] + tail) == [StripReturn(l), []] + Lines(tail)
  {
    Assoc(l + [NL], [NL], tail);
    LinesHead(l, [NL] + tail);
    GapLine(tail);
    TwoThenMore(StripReturn(l), [], Lines(tail));
  }

  /** The lines of a written file: fence, fields, fence, an empty line, and the lines of the text. */
  lemma WrittenLines(pairs: seq<(string, string)>, tail: string)
    ensures Lines(Unlines(FrontLines(pairs)) + tail) == [FENCE] + (FileLines(pairs) + ([FENCE, []] + Lines(tail)))
  {
    var keys, close := Unlines(KeyLines(pairs)), FENCE + [NL] + [NL];
    FrontText(pairs);
    FenceFacts();
    assert FENCE + [NL] + (keys + close) + tail == FENCE + [NL] + (keys + (close + tail));
    LinesHead(FENCE, keys + (close + tail));
    UnlinesEnds(KeyLines(pairs));
    LinesConcat(keys, close + tail);
    KeyLinesRead(pairs);
    LineAndGap(FENCE, tail);
  }

  // ---- reading past lines ----

  predicate HasFence(lines: seq<string>) { lines != [] && (IsFence(lines[0]) || HasFence(lines[1..])) }

  lemma {:induction false} FenceConcat(a: seq<string>, b: seq<string>)
    ensures HasFence(a + b) <==> HasFence(a) || HasFence(b)
  {
    if a == [] {
      assert a + b == b;
    } else {
      assert (a + b)[1..] == a[1..] + b;
      FenceConcat(a[1..], b);
    }
  }

  /** The parser stops at the first fence and does not see what follows. */
  lemma {:induction false} ReadSplit(f: Fields, lines: seq<string>, rest: seq<string>)
    ensures ReadFields(f, true, lines + rest)
         == if HasFence(lines) then ReadFields(f, true, lines) else ReadFields(ReadFields(f, true, lines), true, rest)
    decreases |lines|
  {
    if lines == [] {
      assert lines + rest == rest;
    } else {
      assert (lines + rest)[0] == lines[0] && (lines + rest)[1..] == lines[1..] + rest;
      if !IsFence(lines[0]) { ReadSplit(TakeLine(f, lines[0]), lines[1..], rest); }
    }
  }

  /** The body reader, one fence behind it, starts the body at the first fence. */
  lemma {:induction false} BodySplit(lines: seq<string>, rest: seq<string>) returns (after: seq<string>)
    ensures AfterFences(1, lines + rest) == if HasFence(lines) then (2, after + rest) else AfterFences(1, rest)
    decreases |lines|
  {
    after := [];
    if lines == [] {
      assert lines + rest == rest;
    } else {
      assert (lines + rest)[0] == lines[0] && (lines + rest)[1..] == lines[1..] + rest;
      if IsFence(lines[0]) {
        after := lines[1..];
      } else {
        after := BodySplit(lines[1..], rest);
      }
    }
  }

  // ---- keys and values ----

  /** A key as the writer uses them. */
  predicate PlainKey(key: string) {
    key != [] && !White(key[0]) && !White(key[|key| - 1]) && key[0] != '-' && ':' !in key && OneLine(key)
  }

  predicate PlainPairs(pairs: seq<(string, string)>) {
    forall i | 0 <= i < |pairs| :: PlainKey(pairs[i].0) && OneLine(pairs[i].1)
  }

  function SetAll(f: Fields, pairs: seq<(string, string)>): Fields
    decreases |pairs|
  {
    if pairs == [] then f else SetAll(SetField(f, pairs[0].0, Trim(pairs[0].1)), pairs[1..])
  }

  lemma StripKeyLine(key: string, value: string)
    ensures StripReturn(KeyLine(key, value)) == key + [':'] + StripReturn([' '] + value)
  {
    var x := [' '] + value;
    assert KeyLine(key, value) == key + [':'] + x;
    var line := key + [':'] + x;
    assert line[|line| - 1] == x[|x| - 1];
    assert line[..|line| - 1] == key + [':'] + x[..|x| - 1];
  }

  lemma KeyLineNoFence(key: string, rest: string)
    requires PlainKey(key)
    ensures !IsFence(key + rest)
  {
    var line := key + rest;
    var w, v := TrimSplits(line);
    assert line[0] == key[0];
    assert w == [] && Trim(line) != [] ==> line[0] == Trim(line)[0];
    assert w != [] ==> line[0] == w[0];
  }

  /** A written line reads back as its key and trimmed value. */
  lemma ReadKeyLine(f: Fields, key: string, value: string)
    requires PlainKey(key)
    ensures TakeLine(f, StripReturn(KeyLine(key, value))) == SetField(f, key, Trim(value))
    ensures !IsFence(StripReturn(KeyLine(key, value)))
  {
    var x := StripReturn([' '] + value);
    var line := key + [':'] + x;
    StripKeyLine(key, value);
    IndexAfter(key, ':', x);
    assert line[..|key|] == key && line[|key| + 1..] == x;
    TrimBare(key);
    TrimStripReturn([' '] + value);
    TrimMargins([' '], value, []);
    assert [' '] + value + [] == [' '] + value;
    Assoc(key, [':'], x);
    KeyLineNoFence(key, [':'] + x);
  }

  /** One key and value: the field is set from the first line, and the spill follows. */
  lemma ReadPair(f: Fields, p: (string, string), rest: seq<string>)
    requires PlainKey(p.0)
    ensures ReadFields(f, true, PairLines(p) + rest)
            == ReadFields(SetField(f, p.0, Trim(First(p.1))), true, Spill(p.1) + rest)
    ensures HasFence(PairLines(p)) <==> HasFence(Spill(p.1))
  {
    PairForm(p);
    ReadKeyLine(f, p.0, First(p.1));
    var l := StripReturn(KeyLine(p.0, First(p.1)));
    Assoc([l], Spill(p.1), rest);
    assert ([l] + (Spill(p.1) + rest))[1..] == Spill(p.1) + rest;
    FenceConcat([l], Spill(p.1));
    assert [l][1..] == [];
  }

  lemma ReadPlainPair(f: Fields, p: (string, string), rest: seq<string>)
    requires PlainKey(p.0) && OneLine(p.1)
    ensures ReadFields(f, true, PairLines(p) + rest) == ReadFields(SetField(f, p.0, Trim(p.1)), true, rest)
    ensures !HasFence(PairLines(p))
  {
    OneLineSplits(p.1);
    ReadPair(f, p, rest);
    assert [] + rest == rest;
  }

  lemma {:induction false} ReadPairs(f: Fields, pairs: seq<(string, string)>, rest: seq<string>)
    requires PlainPairs(pairs)
    ensures ReadFields(f, true, FileLines(pairs) + rest) == ReadFields(SetAll(f, pairs), true, rest)
    ensures !HasFence(FileLines(pairs))
    decreases |pairs|
  {
    if pairs == [] {
      assert FileLines(pairs) + rest == rest;
    } else {
      var p, more := pairs[0], FileLines(pairs[1..]);
      Assoc(PairLines(p), more, rest);
      ReadPlainPair(f, p, more + rest);
      ReadPairs(SetField(f, p.0, Trim(p.1)), pairs[1..], rest);
      FenceConcat(PairLines(p), more);
    }
  }

  /** The fields of a written file are those of the lines between its fences, whatever follows. */
  lemma ReadWritten(pairs: seq<(string, string)>, tail: string)
    ensures ReadFields(NOTHING, false, Lines(Unlines(FrontLines(pairs)) + tail))
            == ReadFields(NOTHING, true, FileLines(pairs))
  {
    WrittenLines(pairs, tail);
    FenceFacts();
    var rest := [FENCE, []] + Lines(tail);
    var middle := FileLines(pairs) + rest;
    assert ([FENCE] + middle)[0] == FENCE && ([FENCE] + middle)[1..] == middle;
    ReadSplit(NOTHING, FileLines(pairs), rest);
    assert rest[0] == FENCE;
  }

  /** A key the parser does not look for. */
  predicate Ignored(key: string) {
    key != "mem_class" && key != "mem_delivery" && key != "mem_decline_when" && key != "mem_decline_message"
  }

  lemma {:induction false} SetIgnored(f: Fields, pairs: seq<(string, string)>, more: seq<(string, string)>)
    requires forall i | 0 <= i < |pairs| :: Ignored(pairs[i].0)
    ensures SetAll(f, pairs + more) == SetAll(f, more)
    decreases |pairs|
  {
    if pairs == [] {
      assert pairs + more == more;
    } else {
      assert (pairs + more)[1..] == pairs[1..] + more;
      SetIgnored(f, pairs[1..], more);
    }
  }

  lemma SetHead(f: Fields, p: (string, string), more: seq<(string, string)>)
    ensures SetAll(f, [p] + more) == SetAll(SetField(f, p.0, Trim(p.1)), more)
  {
    assert ([p] + more)[1..] == more;
  }

  lemma BracketsOff(x: string)
    requires x != [] && x[0] != '[' && x[0] != ']' && x[|x| - 1] != '[' && x[|x| - 1] != ']'
    ensures DropBrackets(['['] + x + [']']) == x
  {
    var s := ['['] + x + [']'];
    assert s[1..] == x + [']'];
    var t := x + [']'];
    assert t[0] == x[0] && t[..|t| - 1] == x;
    assert DropBrackets(t) == DropBrackets(x);
  }

  lemma SplitTwo(a: string, b: string)
    requires ',' !in a && ',' !in b
    ensures Split(a + [','] + b) == [a, b]
  {
    var s := a + [','] + b;
    IndexAfter(a, ',', b);
    assert s[..|a|] == a && s[|a| + 1..] == b;
    assert Split(b) == [b];
  }

  /** A word that survives the list syntax. */
  predicate Plain(a: string) {
    a != [] && Bare(a) && ',' !in a && a[0] != '[' && a[0] != ']' && a[|a| - 1] != '[' && a[|a| - 1] != ']'
  }

  lemma ListReadsBack(a: string, b: string)
    requires Plain(a) && Plain(b)
    ensures TrimmedNonempty(Split(DropBrackets(Trim(ListValue(a, b))))) == [a, b]
  {
    var inner := a + [','] + ([' '] + b);
    TrimBare(ListValue(a, b));
    BracketsOff(inner);
    SplitTwo(a, [' '] + b);
    TrimBare(a);
    TrimBare(b);
    TrimMargins([' '], b, []);
    assert [' '] + b + [] == [' '] + b;
    TrimmedTwo(a, [' '] + b);
  }

  lemma TrimmedTwo(x: string, y: string)
    requires Trim(x) != [] && Trim(y) != []
    ensures TrimmedNonempty([x, y]) == [Trim(x), Trim(y)]
  {
    assert [x, y][1..] == [y] && [y][1..] == [];
    assert TrimmedNonempty([y]) == [Trim(y)];
  }

  lemma EntryFields(f: Fields, a: string, b: string, message: string)
    requires Plain(a) && Plain(b) && Bare(message)
    ensures SetAll(f, DeclineEntry(a, b, message)) == f.(declineWhen := [a, b], declineMessage := message)
  {
    var w, m := ("mem_decline_when", ListValue(a, b)), ("mem_decline_message", message);
    assert DeclineEntry(a, b, message) == [w] + ([m] + []);
    assert |w.0| == 16 && |m.0| == 19;
    ListReadsBack(a, b);
    TrimBare(message);
    SetHead(f, w, [m] + []);
    SetHead(f.(declineWhen := [a, b]), m, []);
  }

  lemma ConstantsPlain()
    ensures Plain(ZERO_INFERENCE) && Plain(ATTRIBUTE_ABSENT) && Bare(DECLINE_MESSAGE)
  {}

  lemma DeclineFields(f: Fields, memClass: string)
    ensures SetAll(f, DeclinePairs(memClass))
         == if memClass == PRIVATE then f.(declineWhen := DECLINE_WHEN, declineMessage := DECLINE_MESSAGE) else f
  {
    if memClass == PRIVATE {
      ConstantsPlain();
      EntryFields(f, ZERO_INFERENCE, ATTRIBUTE_ABSENT, DECLINE_MESSAGE);
    }
  }


  lemma TopPlain(text: string)
    ensures PlainPairs(TopPairs(text)) && forall i | 0 <= i < |TopPairs(text)| :: Ignored(TopPairs(text)[i].0)
  {
    assert PlainKey("type") && PlainKey("title") && PlainKey("description") && OneLine("memory");
    assert |"type"| == 4 && |"title"| == 5 && |"description"| == 11;
  }

  lemma StatusPlain()
    ensures PlainPairs(STATUS) && forall i | 0 <= i < |STATUS| :: Ignored(STATUS[i].0)
  {
    assert PlainKey("sp_status") && PlainKey("mem_kind") && OneLine("ACTIVE") && OneLine("episode");
    assert |"sp_status"| == 9 && |"mem_kind"| == 8;
  }

  lemma KeysPlain()
    ensures PlainKey("tags") && Ignored("tags") && PlainKey("mem_addr") && Ignored("mem_addr")
    ensures PlainKey("mem_class") && PlainKey("mem_delivery") && PlainKey("mem_authority") && Ignored("mem_authority")
  {
    assert |"tags"| == 4 && |"mem_addr"| == 8 && |"mem_authority"| == 13;
  }

  lemma MessageIsOneLine()
    ensures OneLine(DECLINE_MESSAGE)
  {
    assert OneLine("I have a record ") && OneLine("for that entity, ");
    assert OneLine("but it does not ") && OneLine("include that ");
    assert OneLine("specific detail.");
  }

  lemma DeclinePlain(memClass: string)
    ensures PlainPairs(DeclinePairs(memClass))
  {
    assert PlainKey("mem_decline_when") && PlainKey("mem_decline_message");
    assert OneLine(ZERO_INFERENCE) && OneLine(ATTRIBUTE_ABSENT);
    MessageIsOneLine();
  }

  lemma AuthorityPlain(memClass: string)
    ensures OneLine(Authority(memClass))
  {
    assert OneLine("private") && OneLine("supplements") && OneLine("overrides-prior");
  }

  lemma ClassPlain(memClass: string, delivery: string)
    requires OneLine(memClass) && OneLine(delivery)
    ensures PlainPairs(ClassPairs(memClass, delivery))
  {
    KeysPlain();
    AuthorityPlain(memClass);
    DeclinePlain(memClass);
  }

  /** The fields that the class lines set, on top of what was set before. */
  lemma FieldsOfClass(f: Fields, memClass: string, delivery: string)
    ensures SetAll(f, ClassPairs(memClass, delivery))
         == Fields(Some(Trim(memClass)), Some(Trim(delivery)),
                   if memClass == PRIVATE then DECLINE_WHEN else f.declineWhen,
                   if memClass == PRIVATE then DECLINE_MESSAGE else f.declineMessage)
  {
    var c, d, u := ("mem_class", memClass), ("mem_delivery", delivery), [("mem_authority", Authority(memClass))];
    var rest := DeclinePairs(memClass);
    SetHead(f, c, [d] + (u + rest));
    var f1 := SetField(f, c.0, Trim(memClass));
    SetHead(f1, d, u + rest);
    var f2 := SetField(f1, d.0, Trim(delivery));
    KeysPlain();
    SetIgnored(f2, u, rest);
    DeclineFields(f2, memClass);
    KeysDiffer();
  }

  lemma KeysDiffer()
    ensures "mem_delivery" != "mem_class"
  {
    assert |"mem_delivery"| != |"mem_class"|;
  }

  // ---- what the name can do ----

  /** The fields after the tags, when those fit in one line. */
  lemma ReadTop(text: string, memClass: string, name: string, delivery: string)
    requires OneLine(memClass)
    ensures ReadFields(NOTHING, true, FileLines(Pairs(text, memClass, name, delivery)))
         == ReadFields(NOTHING, true, Spill(name) + FileLines(ClassPairs(memClass, delivery)))
  {
    var rest := [("mem_addr", name)] + ClassPairs(memClass, delivery);
    var tags := [("tags", Tags(memClass))];
    KeysPlain();
    TopPlain(text);
    StatusPlain();
    TagsOneLine(memClass);
    SkipIgnored(TopPairs(text), tags + (STATUS + rest));
    SkipIgnored(tags, STATUS + rest);
    SkipIgnored(STATUS, rest);
    ReadName(name, ClassPairs(memClass, delivery));
  }

  lemma ReadName(name: string, more: seq<(string, string)>)
    ensures ReadFields(NOTHING, true, FileLines([("mem_addr", name)] + more))
         == ReadFields(NOTHING, true, Spill(name) + FileLines(more))
  {
    var addr := ("mem_addr", name);
    KeysPlain();
    FileLinesCons(addr, more);
    ReadPair(NOTHING, addr, FileLines(more));
    assert SetField(NOTHING, addr.0, Trim(First(name))) == NOTHING;
  }

  lemma TagsOneLine(memClass: string)
    requires OneLine(memClass)
    ensures OneLine(Tags(memClass))
  {
    assert OneLine("[mem-okf, episode, ") && OneLine("]");
  }

  lemma SkipIgnored(pairs: seq<(string, string)>, more: seq<(string, string)>)
    requires PlainPairs(pairs) && forall i | 0 <= i < |pairs| :: Ignored(pairs[i].0)
    ensures ReadFields(NOTHING, true, FileLines(pairs + more)) == ReadFields(NOTHING, true, FileLines(more))
  {
    FileLinesConcat(pairs, more);
    ReadPairs(NOTHING, pairs, FileLines(more));
    SetIgnored(NOTHING, pairs, []);
    assert pairs + [] == pairs;
  }

  /** The name's spill sets no decline field, or it ends the frontmatter and is the policy by itself. */
  predicate NameKeeps(name: string, memClass: string, delivery: string) {
    var f := ReadFields(NOTHING, true, Spill(name));
    if HasFence(Spill(name)) then PolicyOf(f) == Some(FromClass(memClass, delivery))
    else Trim(memClass) == memClass && Trim(delivery) == delivery
         && (memClass == PRIVATE || (f.declineWhen == [] && f.declineMessage == ""))
  }

  lemma PolicyOneLine(text: string, memClass: string, name: string, delivery: string)
    requires OneLine(memClass) && OneLine(delivery)
    ensures Parsed(Write(text, memClass, name, delivery)) == Some(FromClass(memClass, delivery))
       <==> NameKeeps(name, memClass, delivery)
  {
    ReadWritten(Pairs(text, memClass, name, delivery), text + [NL]);
    ReadTop(text, memClass, name, delivery);
    var rest := FileLines(ClassPairs(memClass, delivery));
    ReadSplit(NOTHING, Spill(name), rest);
    if !HasFence(Spill(name)) {
      var f := ReadFields(NOTHING, true, Spill(name));
      ClassPlain(memClass, delivery);
      ReadPairs(f, ClassPairs(memClass, delivery), []);
      assert rest + [] == rest;
      FieldsOfClass(f, memClass, delivery);
    }
  }

  // ---- values read are single lines ----

  predicate OneLineFields(f: Fields) {
    (f.memClass.Some? ==> OneLine(f.memClass.value)) && (f.delivery.Some? ==> OneLine(f.delivery.value))
  }

  lemma TakesOneLine(f: Fields, line: string)
    requires OneLineFields(f) && OneLine(line)
    ensures OneLineFields(TakeLine(f, line))
  {
    match SplitOnce(line)
    case None =>
    case Some(kv) => TrimOneLine(kv.1);
  }

  lemma {:induction false} ReadsOneLine(f: Fields, open: bool, lines: seq<string>)
    requires OneLineFields(f) && forall l | l in lines :: OneLine(l)
    ensures OneLineFields(ReadFields(f, open, lines))
    decreases |lines|
  {
    if lines != [] {
      assert OneLine(lines[0]);
      if IsFence(lines[0]) {
        if !open { ReadsOneLine(f, true, lines[1..]); }
      } else if open {
        TakesOneLine(f, lines[0]);
        ReadsOneLine(TakeLine(f, lines[0]), true, lines[1..]);
      } else {
        ReadsOneLine(f, false, lines[1..]);
      }
    }
  }

  lemma DefaultOneLine(memClass: string)
    ensures OneLine(ClassDefaultDelivery(memClass))
  {
    assert OneLine("attr-gate-strict") && OneLine("systemecho") && OneLine("system") && OneLine("recite");
  }

  /** Whatever file is parsed, class and delivery of the policy are single lines. */
  lemma ParsedIsOneLine(file: string)
    ensures Parsed(file).Some? ==> OneLine(Parsed(file).value.memClass) && OneLine(Parsed(file).value.delivery)
  {
    LinesAreOneLine(file);
    ReadsOneLine(NOTHING, false, Lines(file));
    var f := ReadFields(NOTHING, false, Lines(file));
    if f.memClass.Some? { DefaultOneLine(f.memClass.value); }
  }

  // ---- the round trips ----

  /**
   * For any strings: a written file parses to the policy of its class exactly when class and
   * delivery are single lines without white margins and the name's spill does not interfere.
   */
  lemma PolicyRoundTrip(text: string, memClass: string, name: string, delivery: string)
    ensures Parsed(Write(text, memClass, name, delivery)) == Some(FromClass(memClass, delivery))
       <==> OneLine(memClass) && OneLine(delivery) && NameKeeps(name, memClass, delivery)
  {
    if OneLine(memClass) && OneLine(delivery) {
      PolicyOneLine(text, memClass, name, delivery);
    } else {
      ParsedIsOneLine(Write(text, memClass, name, delivery));
    }
  }

  /** A single-line name does not interfere. */
  lemma OneLineNameKeeps(name: string, memClass: string, delivery: string)
    requires OneLine(name)
    ensures NameKeeps(name, memClass, delivery) <==> Trim(memClass) == memClass && Trim(delivery) == delivery
  {
    OneLineSplits(name);
  }

  /** Whatever the other fields hold, the text does not change the policy read back. */
  lemma TextCannotChangePolicy(text: string, text': string, memClass: string, name: string, delivery: string)
    ensures Parsed(Write(text, memClass, name, delivery)) == Parsed(Write(text', memClass, name, delivery))
  {
    TextIsSkipped(text, memClass, name, delivery);
    TextIsSkipped(text', memClass, name, delivery);
  }

  /** The frontmatter below the title. */
  function Below(memClass: string, name: string, delivery: string): seq<(string, string)> {
    [("tags", Tags(memClass))] + (STATUS + ([("mem_addr", name)] + ClassPairs(memClass, delivery)))
  }

  lemma TextIsSkipped(text: string, memClass: string, name: string, delivery: string)
    ensures Parsed(Write(text, memClass, name, delivery))
         == PolicyOf(ReadFields(NOTHING, true, FileLines(Below(memClass, name, delivery))))
  {
    ReadWritten(Pairs(text, memClass, name, delivery), text + [NL]);
    TopPlain(text);
    SkipIgnored(TopPairs(text), Below(memClass, name, delivery));
  }

  /** Nor does one single-line name instead of another. */
  lemma NameCannotChangePolicy(text: string, memClass: string, name: string, name': string, delivery: string)
    requires OneLine(name) && OneLine(name')
    ensures Parsed(Write(text, memClass, name, delivery)) == Parsed(Write(text, memClass, name', delivery))
  {
    TextIsSkipped(text, memClass, name, delivery);
    TextIsSkipped(text, memClass, name', delivery);
    NameIsSkipped(memClass, name, delivery);
    NameIsSkipped(memClass, name', delivery);
  }

  lemma NameIsSkipped(memClass: string, name: string, delivery: string)
    requires OneLine(name)
    ensures var tags, rest := PairLines(("tags", Tags(memClass))), FileLines(ClassPairs(memClass, delivery));
            ReadFields(NOTHING, true, FileLines(Below(memClass, name, delivery)))
            == if HasFence(tags) then ReadFields(NOTHING, true, tags)
               else ReadFields(ReadFields(NOTHING, true, tags), true, rest)
  {
    var tags, more := ("tags", Tags(memClass)), ClassPairs(memClass, delivery);
    var f := ReadFields(NOTHING, true, PairLines(tags));
    FileLinesCons(tags, STATUS + ([("mem_addr", name)] + more));
    ReadSplit(NOTHING, PairLines(tags), FileLines(STATUS + ([("mem_addr", name)] + more)));
    FileLinesConcat(STATUS, [("mem_addr", name)] + more);
    FileLinesCons(("mem_addr", name), more);
    StatusPlain();
    KeysPlain();
    ReadPairs(f, STATUS, PairLines(("mem_addr", name)) + FileLines(more));
    SetIgnored(f, STATUS, []);
    assert STATUS + [] == STATUS;
    ReadPlainPair(f, ("mem_addr", name), FileLines(more));
  }

  /** A name that is a line feed and a fence: the parser finds no class and returns nothing. */
  lemma FenceInName(text: string, memClass: string, delivery: string)
    requires OneLine(memClass)
    ensures Parsed(Write(text, memClass, [NL] + FENCE, delivery)) == None
    ensures !NameKeeps([NL] + FENCE, memClass, delivery)
  {
    var name := [NL] + FENCE;
    ReadWritten(Pairs(text, memClass, name, delivery), text + [NL]);
    ReadTop(text, memClass, name, delivery);
    ReadSplit(NOTHING, Spill(name), FileLines(ClassPairs(memClass, delivery)));
    FenceFacts();
    assert name[1..] == FENCE;
    LinesOne(FENCE);
    assert Spill(name) == [FENCE];
  }

  // ---- the body ----

  /** The class, name or delivery puts a fence into the frontmatter. */
  predicate FenceInside(memClass: string, name: string, delivery: string) {
    HasFence(Spill(memClass)) || HasFence(Spill(name)) || HasFence(Spill(delivery))
  }

  lemma FenceCons(p: (string, string), more: seq<(string, string)>)
    requires PlainKey(p.0)
    ensures HasFence(FileLines([p] + more)) <==> HasFence(Spill(p.1)) || HasFence(FileLines(more))
  {
    FileLinesCons(p, more);
    FenceConcat(PairLines(p), FileLines(more));
    ReadPair(NOTHING, p, []);
  }

  lemma FencePlain(pairs: seq<(string, string)>, more: seq<(string, string)>)
    requires PlainPairs(pairs)
    ensures HasFence(FileLines(pairs + more)) <==> HasFence(FileLines(more))
  {
    FileLinesConcat(pairs, more);
    FenceConcat(FileLines(pairs), FileLines(more));
    ReadPairs(NOTHING, pairs, []);
  }

  /** Closing a bracket after a text only takes fences away. */
  lemma {:induction false} BracketHidesFence(x: string)
    ensures HasFence(Lines(x + [']'] + [NL])) ==> HasFence(Lines(x + [NL]))
    decreases |x|
  {
    if OneLine(x) {
      LinesOne(x + [']']);
      assert StripReturn(x + [']']) == x + [']'];
      BracketNoFence(x);
      assert [x + [']']][1..] == [];
    } else {
      var i := IndexOf(x, NL);
      var a, b := x[..i], x[i + 1..];
      assert x + [']'] + [NL] == a + [NL] + (b + [']'] + [NL]);
      assert x + [NL] == a + [NL] + (b + [NL]);
      LinesHead(a, b + [']'] + [NL]);
      LinesHead(a, b + [NL]);
      BracketHidesFence(b);
      FenceConcat([StripReturn(a)], Lines(b + [']'] + [NL]));
      FenceConcat([StripReturn(a)], Lines(b + [NL]));
    }
  }

  lemma BracketNoFence(x: string)
    ensures !IsFence(x + [']'])
  {
    var t := x + [']'];
    var w, v := TrimSplits(t);
    assert t[|t| - 1] == ']';
    if v != [] { assert t[|t| - 1] == v[|v| - 1]; }
    if Trim(t) != [] && v == [] { assert t[|t| - 1] == Trim(t)[|Trim(t)| - 1]; }
  }

  lemma SpillBehind(prefix: string, value: string)
    requires OneLine(prefix)
    ensures Spill(prefix + value) == Spill(value)
  {
    if OneLine(value) {
      OneLineSplits(value);
      OneLineSplits(prefix + value);
    } else {
      var i := IndexOf(value, NL);
      LineFeedSplits(value, i);
      SpillShift(prefix, value[..i], value[i + 1..]);
    }
  }

  lemma SpillShift(prefix: string, first: string, more: string)
    requires OneLine(prefix) && OneLine(first)
    ensures Spill(prefix + (first + [NL] + more)) == Lines(more + [NL])
  {
    SpillAt(prefix + first, more);
    Assoc(prefix, first + [NL], more);
    Assoc(prefix, first, [NL]);
  }

  lemma SpillAt(first: string, more: string)
    requires OneLine(first)
    ensures Spill(first + [NL] + more) == Lines(more + [NL])
  {
    var v := first + [NL] + more;
    IndexAfter(first, NL, more);
    assert v[|first| + 1..] == more;
  }

  /** A closing bracket spills as the text does, and hides a fence at most. */
  lemma SpillBracket(x: string)
    ensures HasFence(Spill(x + [']'])) ==> HasFence(Spill(x))
  {
    if OneLine(x) {
      OneLineSplits(x + [']']);
    } else {
      var i := IndexOf(x, NL);
      LineFeedSplits(x, i);
      assert x + [']'] == x[..i] + [NL] + (x[i + 1..] + [']']);
      SpillAt(x[..i], x[i + 1..] + [']']);
      BracketHidesFence(x[i + 1..]);
    }
  }

  lemma TagsFence(memClass: string)
    ensures HasFence(Spill(Tags(memClass))) ==> HasFence(Spill(memClass))
  {
    var open := "[mem-okf, episode, ";
    assert OneLine("[mem-okf, episode, ");
    assert Tags(memClass) == open + (memClass + [']']);
    SpillBehind(open, memClass + [']']);
    SpillBracket(memClass);
  }

  /** The frontmatter is closed early exactly when class, name or delivery holds a fence. */
  lemma FenceIff(text: string, memClass: string, name: string, delivery: string)
    ensures HasFence(FileLines(Pairs(text, memClass, name, delivery))) <==> FenceInside(memClass, name, delivery)
  {
    var classes := ClassPairs(memClass, delivery);
    TopPlain(text);
    StatusPlain();
    KeysPlain();
    TagsFence(memClass);
    FencePlain(TopPairs(text), Below(memClass, name, delivery));
    FenceCons(("tags", Tags(memClass)), STATUS + ([("mem_addr", name)] + classes));
    FencePlain(STATUS, [("mem_addr", name)] + classes);
    FenceCons(("mem_addr", name), classes);
    ClassFence(memClass, delivery);
  }

  lemma ClassFence(memClass: string, delivery: string)
    ensures HasFence(FileLines(ClassPairs(memClass, delivery)))
            <==> HasFence(Spill(memClass)) || HasFence(Spill(delivery))
  {
    var rest := [("mem_authority", Authority(memClass))] + DeclinePairs(memClass);
    KeysPlain();
    FenceCons(("mem_class", memClass), [("mem_delivery", delivery)] + rest);
    FenceCons(("mem_delivery", delivery), rest);
    AuthorityPlain(memClass);
    DeclinePlain(memClass);
    FencePlain(rest, []);
    assert rest + [] == rest;
  }

  /** What the body reader finds behind the second fence. */
  lemma BodyLines(pairs: seq<(string, string)>, tail: string) returns (after: seq<string>)
    ensures AfterFences(0, Lines(Unlines(FrontLines(pairs)) + tail))
         == (2, if HasFence(FileLines(pairs)) then after + ([FENCE, []] + Lines(tail)) else [[]] + Lines(tail))
  {
    WrittenLines(pairs, tail);
    var rest := [FENCE, []] + Lines(tail);
    FirstFence(FileLines(pairs) + rest);
    after := BodySplit(FileLines(pairs), rest);
    SecondFence(Lines(tail));
  }

  lemma FirstFence(lines: seq<string>)
    ensures AfterFences(0, [FENCE] + lines) == AfterFences(1, lines)
  {
    FenceFacts();
    assert ([FENCE] + lines)[0] == FENCE && ([FENCE] + lines)[1..] == lines;
  }

  lemma SecondFence(lines: seq<string>)
    ensures AfterFences(1, [FENCE, []] + lines) == (2, [[]] + lines)
  {
    FenceFacts();
    var all := [FENCE, []] + lines;
    assert all[0] == FENCE && all[1..] == [[]] + lines;
  }

  /** Lines in front of the closing fence make the body a different one. */
  lemma EarlyFence(after: seq<string>, text: string)
    ensures Trim(Unlines(after + ([FENCE, []] + Lines(text + [NL])))) != Trim(text)
  {
    var tail := text + [NL];
    UnlinesConcat(after, [FENCE, []] + Lines(tail));
    UnlinesConcat([FENCE, []], Lines(tail));
    UnlinesOfLines(tail);
    FenceFacts();
    var front := Unlines(after) + (FENCE + [NL] + ([] + [NL]));
    Assoc(Unlines(after), FENCE + [NL] + ([] + [NL]), DropReturns(tail));
    DarkEnd(Unlines(after), FENCE);
    ReadBehind(front, text);
  }

  lemma DarkEnd(a: string, l: string)
    requires l != [] && !White(l[0])
    ensures var front := a + (l + [NL] + ([] + [NL])); !AllWhite(front) && front[|front| - 1] == NL
  {
    var front := a + (l + [NL] + ([] + [NL]));
    assert front[|a|] == l[0];
  }

  lemma PlainBody(text: string)
    ensures Trim(Unlines([[]] + Lines(text + [NL]))) == Trim(text) <==> !HasCrLf(Trim(text))
  {
    var tail := text + [NL];
    UnlinesOfLines(tail);
    GapFirst(Lines(tail));
    TrimMargins([NL], DropReturns(tail), []);
    assert [NL] + DropReturns(tail) + [] == [NL] + DropReturns(tail);
    TrimTail(text);
    TrimDropIff(tail);
  }

  lemma GapFirst(lines: seq<string>)
    ensures Unlines([[]] + lines) == [NL] + Unlines(lines)
  {
    var all: seq<string> := [[]] + lines;
    assert all[0] == [] && all[1..] == lines;
    assert [] + [NL] == [NL];
  }

  lemma TrimTail(text: string)
    ensures Trim(text + [NL]) == Trim(text)
  {
    TrimMargins([], text, [NL]);
    assert [] + text + [NL] == text + [NL];
  }

  /**
   * For any strings: the body reads back as the trimmed text exactly when that holds no CR LF and
   * neither class nor name nor delivery puts a fence into the frontmatter.
   */
  lemma BodyRoundTrip(text: string, memClass: string, name: string, delivery: string)
    ensures BodyOf(Write(text, memClass, name, delivery)) == Trim(text)
       <==> !FenceInside(memClass, name, delivery) && !HasCrLf(Trim(text))
  {
    var pairs := Pairs(text, memClass, name, delivery);
    FenceIff(text, memClass, name, delivery);
    var after := BodyLines(pairs, text + [NL]);
    EarlyFence(after, text);
    PlainBody(text);
  }

  /** In particular a text without carriage returns comes back when nothing closes the frontmatter early. */
  lemma NoReturnNoLoss(text: string, memClass: string, name: string, delivery: string)
    requires RET !in text && !FenceInside(memClass, name, delivery)
    ensures BodyOf(Write(text, memClass, name, delivery)) == Trim(text)
  {
    var w, v := TrimSplits(text);
    forall i | 0 <= i < |Trim(text)| ensures Trim(text)[i] != RET {
      assert text[|w| + i] == Trim(text)[i];
    }
    BodyRoundTrip(text, memClass, name, delivery);
  }
}
