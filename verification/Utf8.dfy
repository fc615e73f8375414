/** Well-formed UTF-8, section 4 of RFC 3629. */
module Utf8 {
  import opened Common

  predicate Tail(b: byte) { 0x80 <= b <= 0xBF }

  /** The length of the well-formed character at the start of `s`, 0 if there is none. */
  function CharLen(s: bytes): (n: nat)
    ensures n <= |s| && n <= 4
  {
    if s == [] then 0
    else if s[0] <= 0x7F then 1
    else if |s| >= 2 && 0xC2 <= s[0] <= 0xDF && Tail(s[1]) then 2
    else if |s| >= 3 && 0xE0 <= s[0] <= 0xEF && Tail(s[1]) && Tail(s[2])
            && (s[0] == 0xE0 ==> s[1] >= 0xA0) && (s[0] == 0xED ==> s[1] <= 0x9F) then 3
    else if |s| >= 4 && 0xF0 <= s[0] <= 0xF4 && Tail(s[1]) && Tail(s[2]) && Tail(s[3])
            && (s[0] == 0xF0 ==> s[1] >= 0x90) && (s[0] == 0xF4 ==> s[1] <= 0x8F) then 4
    else 0
  }

  predicate WellFormed(s: bytes) {
    s == [] || (CharLen(s) > 0 && WellFormed(s[CharLen(s)..]))
  }

  /** As of the tokens of a vocabulary; checkable when it is loaded. */
  predicate AllWellFormed(ws: seq<bytes>) { forall i | 0 <= i < |ws| :: WellFormed(ws[i]) }

  /** One well-formed character. */
  predicate OneChar(c: bytes) { c != [] && CharLen(c) == |c| }

  lemma CharLenPrefix(a: bytes, b: bytes)
    requires CharLen(a) > 0
    ensures CharLen(a + b) == CharLen(a) && (a + b)[..CharLen(a)] == a[..CharLen(a)]
    ensures (a + b)[CharLen(a)..] == a[CharLen(a)..] + b
  {}

  lemma FirstChar(s: bytes)
    requires CharLen(s) > 0
    ensures OneChar(s[..CharLen(s)])
  {}

  lemma SplitChar(s: bytes)
    requires CharLen(s) > 0
    ensures s == s[..CharLen(s)] + s[CharLen(s)..] && OneChar(s[..CharLen(s)])
  {
    FirstChar(s);
  }

  lemma OneCharWellFormed(c: bytes)
    requires OneChar(c)
    ensures WellFormed(c)
  {
    assert c[|c|..] == [];
  }

  lemma {:induction false} WellFormedConcat(a: bytes, b: bytes)
    requires WellFormed(a) && WellFormed(b)
    ensures WellFormed(a + b)
    decreases |a|
  {
    if a == [] {
      assert a + b == b;
    } else {
      CharLenPrefix(a, b);
      WellFormedConcat(a[CharLen(a)..], b);
    }
  }

  lemma {:induction false} DropWellFormed(a: bytes, b: bytes)
    requires WellFormed(a) && WellFormed(a + b)
    ensures WellFormed(b)
    decreases |a|
  {
    if a == [] {
      assert a + b == b;
    } else {
      CharLenPrefix(a, b);
      DropWellFormed(a[CharLen(a)..], b);
    }
  }

  /** The bytes after the first of a character are tails; no character starts with a tail. */
  lemma CharTails(c: bytes, j: nat)
    requires OneChar(c) && 0 < j < |c|
    ensures Tail(c[j]) && !Tail(c[0])
  {}
}
