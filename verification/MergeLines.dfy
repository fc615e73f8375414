/** Merge lines "LEFT RIGHT" as byte strings. */
module MergeLines {
  import opened Common

  /** The first space at index 1 or later, 0 if there is none. */
  function SplitPoint(line: bytes, k: nat): (sp: nat)
    requires 1 <= k
    ensures sp == 0 || (k <= sp < |line| && line[sp] == SPACE)
    decreases |line| - k
  {
    if k >= |line| then 0 else if line[k] == SPACE then k else SplitPoint(line, k + 1)
  }

  /** The two sides of a merge line; None when the line is inert. */
  function Sides(line: bytes): (s: Option<(bytes, bytes)>)
    ensures s.Some? ==> line == s.value.0 + [SPACE] + s.value.1 && s.value.0 != [] && s.value.1 != []
  {
    var sp := SplitPoint(line, 1);
    if sp == 0 || sp + 1 >= |line| then None else Some((line[..sp], line[sp + 1..]))
  }

  method FindSplit(line: bytes) returns (sp: nat)
    ensures sp == SplitPoint(line, 1)
  {
    sp := 0;
    var k := 1;
    while k < |line|
      invariant 1 <= k && SplitPoint(line, 1) == SplitPoint(line, k)
    {
      if line[k] == SPACE { return k; }
      k := k + 1;
    }
  }

  lemma {:induction false} SplitPointSkips(line: bytes, k: nat, p: nat)
    requires 1 <= k <= p < |line| && line[p] == SPACE && forall i | k <= i < p :: line[i] != SPACE
    ensures SplitPoint(line, k) == p
    decreases p - k
  {
    if k < p {
      SplitPointSkips(line, k + 1, p);
    }
  }

  /** A key joined with a space from pieces free of spaces splits in only one way. */
  lemma JoinSplits(a: bytes, b: bytes)
    requires a != [] && b != [] && forall i | 0 <= i < |a| :: a[i] != SPACE
    ensures Sides(a + [SPACE] + b) == Some((a, b))
  {
    var line := a + [SPACE] + b;
    SplitPointSkips(line, 1, |a|);
    assert line[..|a|] == a && line[|a| + 1..] == b;
  }
}
