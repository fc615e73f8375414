/** Lookup of byte strings in a numbered list: the first entry spelled that way, or -1. */
module Vocab {
  import opened Common
  import opened OpenTable

  /** The position of the first entry equal to `s`, or -1 (sp_tok_vocab_lookup over the vocabulary). */
  function Lookup<T(==)>(list: seq<T>, s: T): (id: int)
    ensures -1 <= id < |list|
    ensures id >= 0 ==> list[id] == s && forall j | 0 <= j < id :: list[j] != s
    ensures id == -1 ==> s !in list
  {
    if list == [] then -1 else
    var id := Lookup(list[..|list| - 1], s);
    if id >= 0 then id else if list[|list| - 1] == s then |list| - 1 else -1
  }

  lemma LookupSnoc<T>(list: seq<T>, i: nat, s: T)
    requires i < |list|
    ensures Lookup(list[..i + 1], s) == if Lookup(list[..i], s) >= 0 then Lookup(list[..i], s)
                                        else if list[i] == s then i else -1
  {
    assert list[..i + 1][..i] == list[..i];
  }

  ghost predicate Indexes(m: map<bytes, int>, list: seq<bytes>) {
    forall s: bytes :: (s in m <==> Lookup(list, s) >= 0) && (s in m ==> m[s] == Lookup(list, s))
  }

  lemma IndexNext(m: map<bytes, int>, list: seq<bytes>, i: nat)
    requires i < |list| && Indexes(m, list[..i])
    ensures Indexes(if list[i] in m then m else m[list[i] := i], list[..i + 1])
  {
    var m' := if list[i] in m then m else m[list[i] := i];
    forall s: bytes
      ensures (s in m' <==> Lookup(list[..i + 1], s) >= 0) && (s in m' ==> m'[s] == Lookup(list[..i + 1], s))
    {
      LookupSnoc(list, i, s);
      assert s in m <==> Lookup(list[..i], s) >= 0;
      assert list[i] in m <==> Lookup(list[..i], list[i]) >= 0;
    }
  }

  /** Enter the i-th entry under its number. */
  method PutNext(t: StringMap, list: seq<bytes>, i: nat)
    requires t.Valid() && i < |list| && |t.m| + 1 < t.e.Length && Indexes(t.m, list[..i])
    modifies t`m, t.e
    ensures t.Valid() && t.e == old(t.e) && |t.m| <= |old(t.m)| + 1 && Indexes(t.m, list[..i + 1])
  {
    IndexNext(t.m, list, i);
    t.Put(list[i], i);
  }

  /** Fill a table with a list in order: its answers are then exactly Lookup. */
  method BuildIndex(list: seq<bytes>, hash: bytes -> nat) returns (t: StringMap)
    ensures t.Valid() && fresh(t) && fresh(t.e) && Indexes(t.m, list)
  {
    t := new StringMap(hash, |list|);
    for i := 0 to |list|
      invariant t.Valid() && fresh(t) && fresh(t.e) && t.e.Length >= 2 * |list| && t.e.Length >= 16
      invariant |t.m| <= i && Indexes(t.m, list[..i])
    {
      PutNext(t, list, i);
    }
    assert list[..|list|] == list;
  }
}
