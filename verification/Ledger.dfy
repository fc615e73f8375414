/**
 * The append-only receipt ledger and its canonical order (tools/sp_daemon/src/pouw_ledger.rs).
 * A file is a byte sequence; operating-system failures are left out.
 */
module ReceiptLedger {
  import opened Common
  import opened ReceiptLayout

  datatype LedgerError = BadSentinel(index: nat, observed: byte) | PartialTail(extra: nat) | BadOffset

  // ---- files and records ----

  ghost predicate Sound(recs: seq<Receipt>) {
    forall i | 0 <= i < |recs| :: recs[i].Shape() && recs[i].SentinelOk()
  }

  /** The file that holds these records. */
  ghost function FileOf(recs: seq<Receipt>): bytes
    requires Sound(recs)
  {
    if recs == [] then [] else AsBytes(recs[0]) + FileOf(recs[1..])
  }

  /** What reading a file from record `index` on yields: its records, or the first fault. */
  function Records(file: bytes, index: nat): Result<seq<Receipt>, LedgerError>
    decreases |file|
  {
    if file == [] then Ok([])
    else if |file| < RECEIPT_BYTES then Err(PartialTail(|file|))
    else if file[63] != SENTINEL then Err(BadSentinel(index, file[63]))
    else
      match Records(file[RECEIPT_BYTES..], index + 1)
      case Err(e) => Err(e)
      case Ok(rest) => Ok([FromBytes(file[..RECEIPT_BYTES])] + rest)
  }

  lemma {:induction false} RecordsAreSound(file: bytes, index: nat)
    requires Records(file, index).Ok?
    ensures Sound(Records(file, index).value)
    decreases |file|
  {
    if file != [] { RecordsAreSound(file[RECEIPT_BYTES..], index + 1); }
  }

  /** A file that reads without fault is the writing of its records. */
  lemma {:induction false} WriteRecords(file: bytes, index: nat)
    requires Records(file, index).Ok?
    ensures Sound(Records(file, index).value) && FileOf(Records(file, index).value) == file
    decreases |file|
  {
    RecordsAreSound(file, index);
    if file != [] {
      var recs := Records(file, index).value;
      WriteRecords(file[RECEIPT_BYTES..], index + 1);
      WriteRead(file[..RECEIPT_BYTES]);
      assert recs[1..] == Records(file[RECEIPT_BYTES..], index + 1).value;
      assert file == file[..RECEIPT_BYTES] + file[RECEIPT_BYTES..];
    }
  }

  /** Written records read back. */
  lemma {:induction false} ReadRecords(recs: seq<Receipt>, index: nat)
    requires Sound(recs)
    ensures Records(FileOf(recs), index) == Ok(recs)
    decreases |recs|
  {
    if recs != [] {
      var file := FileOf(recs);
      ReadRecords(recs[1..], index + 1);
      ReadWritten(recs[0]);
      assert file[..RECEIPT_BYTES] == AsBytes(recs[0]) && file[RECEIPT_BYTES..] == FileOf(recs[1..]);
      assert recs == [recs[0]] + recs[1..];
    }
  }

  lemma {:induction false} FileOfSnoc(recs: seq<Receipt>, r: Receipt)
    requires Sound(recs) && r.Shape() && r.SentinelOk()
    ensures Sound(recs + [r]) && FileOf(recs + [r]) == FileOf(recs) + AsBytes(r)
  {
    var more := recs + [r];
    if recs == [] {
      assert more[1..] == [] && FileOf(more) == AsBytes(r) + [];
    } else {
      FileOfSnoc(recs[1..], r);
      assert more[0] == recs[0] && more[1..] == recs[1..] + [r];
      Assoc(AsBytes(recs[0]), FileOf(recs[1..]), AsBytes(r));
    }
  }

  // ---- the canonical order ----

  /** Lexicographic order, as arrays and tuples compare. */
  predicate Leq(a: seq<int>, b: seq<int>) {
    a == [] || (b != [] && (a[0] < b[0] || (a[0] == b[0] && Leq(a[1..], b[1..]))))
  }

  lemma {:induction false} LeqTotal(a: seq<int>, b: seq<int>)
    ensures Leq(a, b) || Leq(b, a)
    ensures Leq(a, b) && Leq(b, a) ==> a == b
  {
    if a != [] && b != [] && a[0] == b[0] {
      LeqTotal(a[1..], b[1..]);
      assert a == [a[0]] + a[1..] && b == [b[0]] + b[1..];
    }
  }

  lemma {:induction false} LeqTransitive(a: seq<int>, b: seq<int>, c: seq<int>)
    requires Leq(a, b) && Leq(b, c)
    ensures Leq(a, c)
  {
    if a != [] && b[0] == a[0] && c[0] == b[0] { LeqTransitive(a[1..], b[1..], c[1..]); }
  }

  type Good = r: Receipt | r.Shape() && r.SentinelOk() witness Mint(0, 0, Zeros(), Zeros(), 0, 0, 0)

  function Zeros(): (b: bytes)
    ensures |b| == 24
  {
    [0, 0, 0, 0, 0, 0, 0, 0, 0, 0, 0, 0, 0, 0, 0, 0, 0, 0, 0, 0, 0, 0, 0, 0]
  }

  /** (sequence_rank, input_hash). */
  function Key(r: Good): seq<int> { [SequenceRank(r)] + r.inputHash }

  lemma KeyIsRankAndHash(a: Good, b: Good)
    ensures Key(a) == Key(b) <==> SameRankAndHash(a, b)
  {
    assert Key(a)[1..] == a.inputHash && Key(b)[1..] == b.inputHash;
    assert Key(a)[0] == SequenceRank(a) && Key(b)[0] == SequenceRank(b);
  }

  predicate Sorted(s: seq<Good>) {
    forall i, j | 0 <= i < j < |s| :: Leq(Key(s[i]), Key(s[j]))
  }

  /** The records with one key, in order. */
  function OfKey(s: seq<Good>, k: seq<int>): seq<Good> {
    if s == [] then [] else (if Key(s[0]) == k then [s[0]] else []) + OfKey(s[1..], k)
  }

  /** Puts r in front of the first record with a greater key or the same one. */
  function Insert(r: Good, s: seq<Good>): (t: seq<Good>)
    ensures |t| == |s| + 1
  {
    if s == [] || Leq(Key(r), Key(s[0])) then [r] + s else [s[0]] + Insert(r, s[1..])
  }

  /** The stable sort by key. */
  function SortByKey(s: seq<Good>): (t: seq<Good>)
    ensures |t| == |s|
  {
    if s == [] then [] else Insert(s[0], SortByKey(s[1..]))
  }

  lemma {:induction false} InsertMultiset(r: Good, s: seq<Good>)
    ensures multiset(Insert(r, s)) == multiset([r] + s)
  {
    if s != [] && !Leq(Key(r), Key(s[0])) {
      InsertMultiset(r, s[1..]);
      assert s == [s[0]] + s[1..];
      assert multiset([r] + s) == multiset{r} + multiset{s[0]} + multiset(s[1..]);
    }
  }

  lemma {:induction false} SortMultiset(s: seq<Good>)
    ensures multiset(SortByKey(s)) == multiset(s)
  {
    if s != [] {
      SortMultiset(s[1..]);
      InsertMultiset(s[0], SortByKey(s[1..]));
      assert s == [s[0]] + s[1..];
    }
  }

  lemma {:induction false} InsertSorted(r: Good, s: seq<Good>)
    requires Sorted(s)
    ensures Sorted(Insert(r, s))
  {
    if s == [] {
    } else if Leq(Key(r), Key(s[0])) {
      forall j | 0 <= j < |s| ensures Leq(Key(r), Key(s[j])) {
        if j > 0 { LeqTransitive(Key(r), Key(s[0]), Key(s[j])); }
      }
    } else {
      InsertSorted(r, s[1..]);
      var t := Insert(r, s[1..]);
      LeqTotal(Key(r), Key(s[0]));
      InsertMultiset(r, s[1..]);
      forall j | 0 <= j < |t| ensures Leq(Key(s[0]), Key(t[j])) {
        assert t[j] in multiset(t);
        assert t[j] in [r] + s[1..];
        if t[j] != r {
          var i :| 0 <= i < |s[1..]| && s[1..][i] == t[j];
          assert s[i + 1] == t[j];
        }
      }
    }
  }

  lemma {:induction false} SortSorted(s: seq<Good>)
    ensures Sorted(SortByKey(s))
  {
    if s != [] {
      SortSorted(s[1..]);
      InsertSorted(s[0], SortByKey(s[1..]));
    }
  }

  lemma OfKeyCons(x: Good, s: seq<Good>, k: seq<int>)
    ensures OfKey([x] + s, k) == (if Key(x) == k then [x] else []) + OfKey(s, k)
  {
    assert ([x] + s)[1..] == s;
  }

  lemma {:induction false} InsertStable(r: Good, s: seq<Good>, k: seq<int>)
    ensures OfKey(Insert(r, s), k) == (if Key(r) == k then [r] else []) + OfKey(s, k)
  {
    if s == [] || Leq(Key(r), Key(s[0])) {
      OfKeyCons(r, s, k);
    } else {
      var x, t := s[0], s[1..];
      InsertStable(r, t, k);
      LeqTotal(Key(r), Key(x));
      OfKeyCons(x, Insert(r, t), k);
      OfKeyCons(x, t, k);
      assert s == [x] + t;
    }
  }

  /** Records with equal keys keep their source order. */
  lemma {:induction false} SortStable(s: seq<Good>, k: seq<int>)
    ensures OfKey(SortByKey(s), k) == OfKey(s, k)
  {
    if s != [] {
      SortStable(s[1..], k);
      InsertStable(s[0], SortByKey(s[1..]), k);
    }
  }

  lemma HeadKeyOccurs(s: seq<Good>)
    ensures s != [] ==> OfKey(s, Key(s[0])) != []
  {}

  lemma {:induction false} KeyOccurs(s: seq<Good>, k: seq<int>) returns (i: nat)
    requires OfKey(s, k) != []
    ensures i < |s| && Key(s[i]) == k
  {
    if Key(s[0]) == k { i := 0; } else { i := KeyOccurs(s[1..], k); i := i + 1; }
  }

  lemma FirstKeyBelow(a: seq<Good>, b: seq<Good>)
    requires Sorted(a) && a != [] && b != [] && OfKey(a, Key(b[0])) == OfKey(b, Key(b[0]))
    ensures Leq(Key(a[0]), Key(b[0]))
  {
    HeadKeyOccurs(b);
    var i := KeyOccurs(a, Key(b[0]));
    LeqTotal(Key(a[0]), Key(a[0]));
    assert i > 0 ==> Leq(Key(a[0]), Key(a[i]));
  }

  ghost predicate SameByKey(a: seq<Good>, b: seq<Good>) {
    forall k: seq<int> :: OfKey(a, k) == OfKey(b, k)
  }

  /** A sorted list is determined by its per-key sublists. */
  lemma {:induction false} SortedIsUnique(a: seq<Good>, b: seq<Good>)
    requires Sorted(a) && Sorted(b)
    requires SameByKey(a, b)
    ensures a == b
    decreases |a|
  {
    if a != [] {
      SameHead(a, b);
      forall k: seq<int> ensures OfKey(a[1..], k) == OfKey(b[1..], k) {
        HeadOff(a, b, k);
      }
      SortedIsUnique(a[1..], b[1..]);
      assert a == [a[0]] + a[1..] && b == [b[0]] + b[1..];
    } else {
      HeadKeyOccurs(b);
    }
  }

  lemma SameHead(a: seq<Good>, b: seq<Good>)
    requires Sorted(a) && Sorted(b) && SameByKey(a, b) && a != []
    ensures b != [] && a[0] == b[0]
  {
    HeadKeyOccurs(a);
    HeadKeyOccurs(b);
    FirstKeyBelow(a, b);
    FirstKeyBelow(b, a);
    LeqTotal(Key(a[0]), Key(b[0]));
    var k0 := Key(a[0]);
    assert OfKey(a, k0)[0] == a[0] && OfKey(b, k0)[0] == b[0];
  }

  lemma OfKeyStep(s: seq<Good>, k: seq<int>)
    requires s != []
    ensures OfKey(s, k) == if Key(s[0]) == k then [s[0]] + OfKey(s[1..], k) else OfKey(s[1..], k)
  {
    assert [] + OfKey(s[1..], k) == OfKey(s[1..], k);
  }

  lemma HeadOff(a: seq<Good>, b: seq<Good>, k: seq<int>)
    requires a != [] && b != [] && a[0] == b[0] && OfKey(a, k) == OfKey(b, k)
    ensures OfKey(a[1..], k) == OfKey(b[1..], k)
  {
    OfKeyStep(a, k);
    OfKeyStep(b, k);
    var p, q, x := OfKey(a[1..], k), OfKey(b[1..], k), a[0];
    if Key(x) == k { SameTail(x, p, q); }
  }

  lemma SameTail(x: Good, p: seq<Good>, q: seq<Good>)
    requires [x] + p == [x] + q
    ensures p == q
  {
    assert ([x] + p)[1..] == p && ([x] + q)[1..] == q;
  }

  // ---- two ledgers ----

  lemma SameSort(a: seq<Good>, b: seq<Good>)
    requires SameByKey(a, b)
    ensures SortByKey(a) == SortByKey(b)
  {
    SortSorted(a);
    SortSorted(b);
    forall k: seq<int> ensures OfKey(SortByKey(a), k) == OfKey(SortByKey(b), k) {
      SortStable(a, k);
      SortStable(b, k);
    }
    SortedIsUnique(SortByKey(a), SortByKey(b));
  }

  lemma SameSource(a: seq<Good>, b: seq<Good>)
    requires SortByKey(a) == SortByKey(b)
    ensures SameByKey(a, b)
  {
    forall k: seq<int> ensures OfKey(a, k) == OfKey(b, k) {
      SortStable(a, k);
      SortStable(b, k);
    }
  }

  /** Two lists sort to the same list exactly when they agree on the order of records with equal keys. */
  lemma SameOrderIff(a: seq<Good>, b: seq<Good>)
    ensures SortByKey(a) == SortByKey(b) <==> SameByKey(a, b)
  {
    if SameByKey(a, b) { SameSort(a, b); }
    if SortByKey(a) == SortByKey(b) { SameSource(a, b); }
  }

  /** Equal sequence rank and input hash occur on equal records only. */
  predicate KeysIdentify(s: seq<Good>) {
    forall i, j | 0 <= i < |s| && 0 <= j < |s| :: SameRankAndHash(s[i], s[j]) ==> s[i] == s[j]
  }

  predicate SameRankAndHash(a: Good, b: Good) {
    SequenceRank(a) == SequenceRank(b) && a.inputHash == b.inputHash
  }

  lemma {:induction false} OfKeyCount(s: seq<Good>, r: Good)
    ensures multiset(OfKey(s, Key(r)))[r] == multiset(s)[r]
  {
    if s != [] {
      OfKeyCount(s[1..], r);
      assert s == [s[0]] + s[1..];
      if Key(s[0]) == Key(r) {
        assert multiset(OfKey(s, Key(r))) == multiset{s[0]} + multiset(OfKey(s[1..], Key(r)));
      }
    }
  }

  lemma {:induction false} OfKeyFrom(s: seq<Good>, k: seq<int>, x: Good)
    ensures x in OfKey(s, k) ==> x in s && Key(x) == k
  {
    if s != [] { OfKeyFrom(s[1..], k, x); }
  }

  /** A list of copies of one record is known by how many there are. */
  lemma {:induction false} CopiesEqual(a: seq<Good>, b: seq<Good>, r: Good)
    requires (forall i | 0 <= i < |a| :: a[i] == r) && (forall i | 0 <= i < |b| :: b[i] == r)
    requires multiset(a)[r] == multiset(b)[r]
    ensures a == b
  {
    CopiesCount(a, r);
    CopiesCount(b, r);
  }

  lemma {:induction false} CopiesCount(a: seq<Good>, r: Good)
    requires forall i | 0 <= i < |a| :: a[i] == r
    ensures multiset(a)[r] == |a|
  {
    if a != [] {
      CopiesCount(a[1..], r);
      assert a == [a[0]] + a[1..];
    }
  }

  /** Permuted ledgers in which a key identifies its record sort to the same list. */
  lemma PermutedSortEqually(a: seq<Good>, b: seq<Good>)
    requires multiset(a) == multiset(b) && KeysIdentify(a)
    ensures SortByKey(a) == SortByKey(b)
  {
    forall k: seq<int> ensures OfKey(a, k) == OfKey(b, k) {
      SameCopies(a, b, k);
    }
    SameSort(a, b);
  }

  lemma SameCopies(a: seq<Good>, b: seq<Good>, k: seq<int>)
    requires multiset(a) == multiset(b) && KeysIdentify(a)
    ensures OfKey(a, k) == OfKey(b, k)
  {
    if OfKey(a, k) != [] || OfKey(b, k) != [] {
      var r := if OfKey(a, k) != [] then OfKey(a, k)[0] else OfKey(b, k)[0];
      OfKeyFrom(a, k, r);
      OfKeyFrom(b, k, r);
      InBoth(a, b, r);
      CopiesOf(a, a, b, k, r);
      CopiesOf(b, a, b, k, r);
      OfKeyCount(a, r);
      OfKeyCount(b, r);
      CopiesEqual(OfKey(a, k), OfKey(b, k), r);
    }
  }

  lemma CopiesOf(s: seq<Good>, a: seq<Good>, b: seq<Good>, k: seq<int>, r: Good)
    requires multiset(a) == multiset(b) && KeysIdentify(a) && r in a && Key(r) == k && (s == a || s == b)
    ensures forall i | 0 <= i < |OfKey(s, k)| :: OfKey(s, k)[i] == r
  {
    forall i | 0 <= i < |OfKey(s, k)| ensures OfKey(s, k)[i] == r {
      var x := OfKey(s, k)[i];
      OfKeyFrom(s, k, x);
      InBoth(a, b, x);
      KeyIsRankAndHash(x, r);
    }
  }

  lemma InBoth(a: seq<Good>, b: seq<Good>, x: Good)
    requires multiset(a) == multiset(b)
    ensures x in a <==> x in b
  {
    assert x in multiset(a) <==> x in multiset(b);
  }

  predicate NoDup(s: seq<Good>) { forall i, j | 0 <= i < j < |s| :: s[i] != s[j] }

  function Copies(s: seq<Good>, x: Good): nat { multiset(s)[x] }

  predicate Once(s: seq<Good>, x: Good) { Copies(s, x) <= 1 }

  lemma CountCons(x: Good, t: seq<Good>, y: Good)
    ensures Copies([x] + t, y) == (if x == y then 1 else 0) + Copies(t, y)
  {}

  lemma {:induction false} NoDupCounts(s: seq<Good>)
    ensures NoDup(s) <==> forall x: Good :: Once(s, x)
  {
    if s != [] {
      var t: seq<Good> := s[1..];
      NoDupCounts(t);
      assert s == [s[0]] + t;
      forall y: Good ensures Copies(s, y) == (if s[0] == y then 1 else 0) + Copies(t, y) {
        CountCons(s[0], t, y);
      }
      assert Once(s, s[0]) <==> s[0] !in t;
      if NoDup(t) && s[0] !in t {
        forall y: Good ensures Once(s, y) { assert Once(t, y); }
      } else if forall y: Good :: Once(s, y) {
        forall y: Good ensures Once(t, y) { assert Once(s, y); }
      }
    }
  }

  lemma SameDups(s: seq<Good>, t: seq<Good>)
    requires multiset(s) == multiset(t)
    ensures NoDup(s) <==> NoDup(t)
  {
    NoDupCounts(s);
    NoDupCounts(t);
    if NoDup(s) {
      forall x: Good ensures Once(t, x) { assert Once(s, x); }
    }
    if NoDup(t) {
      forall x: Good ensures Once(s, x) { assert Once(t, x); }
    }
  }

  /**
   * Nothing is merged, whatever the comment says of equality: each record is written as often as it
   * was read, so the replay is free of duplicates exactly when the source is, and [r, r] is not.
   */
  lemma DuplicatesStay(s: seq<Good>, r: Good)
    ensures Copies(SortByKey(s), r) == Copies(s, r)
    ensures NoDup(SortByKey(s)) <==> NoDup(s)
    ensures !NoDup([r, r]) && SortByKey([r, r]) == [r, r]
  {
    SortMultiset(s);
    SameDups(s, SortByKey(s));
    LeqTotal(Key(r), Key(r));
    assert [r, r][0] == [r, r][1] && [r, r][1..] == [r];
    assert SortByKey([r]) == [r];
  }

  /** Two different records with one key stay in source order, so swapping them changes the result. */
  lemma EqualKeysKeepOrder(x: Good, y: Good)
    requires x != y && SameRankAndHash(x, y)
    ensures SortByKey([x, y]) == [x, y] && SortByKey([x, y]) != SortByKey([y, x])
  {
    KeyIsRankAndHash(x, y);
    LeqTotal(Key(x), Key(x));
    assert [x, y][1..] == [y] && [y, x][1..] == [x];
    assert SortByKey([y]) == [y] && SortByKey([x]) == [x];
  }

  // ---- what the canonical order is ----

  /** The rank as the two reserved bytes spell it, the low byte first. */
  function RankOf(r: Good): nat { (r.reserved[0] as int) + 256 * (r.reserved[1] as int) }

  /** The first byte in which two hashes differ decides. */
  predicate FirstBelow(a: bytes, b: bytes, k: nat) { k < |a| && k < |b| && a[..k] == b[..k] && a[k] < b[k] }

  predicate HashBelow(a: bytes, b: bytes) { exists k :: 0 <= k < |a| && FirstBelow(a, b, k) }

  /** Smaller ranks come first, and among equal ranks smaller hashes. */
  predicate InOrder(a: Good, b: Good) {
    || RankOf(a) < RankOf(b)
    || (RankOf(a) == RankOf(b) && (a.inputHash == b.inputHash || HashBelow(a.inputHash, b.inputHash)))
  }

  predicate Ascends(t: seq<Good>) { forall i, j | 0 <= i < j < |t| :: InOrder(t[i], t[j]) }

  /** The records with the rank and the hash of r, in order. */
  function Alike(s: seq<Good>, r: Good): seq<Good> {
    if s == [] then [] else
      (if RankOf(s[0]) == RankOf(r) && s[0].inputHash == r.inputHash then [s[0]] else []) + Alike(s[1..], r)
  }

  /** t holds the records of s in ascending order, and records alike in their order in s. */
  ghost predicate IsCanonical(s: seq<Good>, t: seq<Good>) {
    multiset(t) == multiset(s) && Ascends(t) && forall r: Good :: Alike(t, r) == Alike(s, r)
  }

  lemma {:induction false} LeqIsFirstBelow(a: bytes, b: bytes)
    requires |a| == |b|
    ensures Leq(a, b) <==> a == b || HashBelow(a, b)
  {
    if a != [] {
      LeqIsFirstBelow(a[1..], b[1..]);
      assert a == [a[0]] + a[1..] && b == [b[0]] + b[1..];
      if a[0] < b[0] { assert FirstBelow(a, b, 0); }
      if a[0] == b[0] { BelowInTail(a, b); }
      if HashBelow(a, b) {
        var k: nat :| k < |a| && FirstBelow(a, b, k);
        assert k > 0 ==> a[..k][0] == b[..k][0];
      }
    }
  }

  lemma BelowInTail(a: bytes, b: bytes)
    requires |a| == |b| > 0 && a[0] == b[0]
    ensures HashBelow(a, b) <==> HashBelow(a[1..], b[1..])
  {
    forall k: nat | k < |a[1..]| ensures FirstBelow(a[1..], b[1..], k) <==> FirstBelow(a, b, k + 1) {
      assert a[..k + 1] == [a[0]] + a[1..][..k] && b[..k + 1] == [b[0]] + b[1..][..k];
      assert a[1..][..k] == a[..k + 1][1..] && b[1..][..k] == b[..k + 1][1..];
    }
    if HashBelow(a, b) {
      var k: nat :| k < |a| && FirstBelow(a, b, k);
      assert FirstBelow(a[1..], b[1..], k - 1);
    }
    if HashBelow(a[1..], b[1..]) {
      var k: nat :| k < |a[1..]| && FirstBelow(a[1..], b[1..], k);
      assert FirstBelow(a, b, k + 1);
    }
  }

  lemma LeqIsInOrder(a: Good, b: Good)
    ensures Leq(Key(a), Key(b)) <==> InOrder(a, b)
  {
    LeqIsFirstBelow(a.inputHash, b.inputHash);
    assert Key(a)[1..] == a.inputHash && Key(b)[1..] == b.inputHash;
  }

  lemma {:induction false} AlikeIsOfKey(s: seq<Good>, r: Good)
    ensures Alike(s, r) == OfKey(s, Key(r))
  {
    if s != [] {
      AlikeIsOfKey(s[1..], r);
      KeyIsRankAndHash(s[0], r);
    }
  }

  /** The sort by key puts the records in canonical order. */
  lemma SortIsCanonical(s: seq<Good>)
    ensures IsCanonical(s, SortByKey(s))
  {
    var t := SortByKey(s);
    SortMultiset(s);
    SortSorted(s);
    forall i, j | 0 <= i < j < |t| ensures InOrder(t[i], t[j]) { LeqIsInOrder(t[i], t[j]); }
    forall r: Good ensures Alike(t, r) == Alike(s, r) {
      SortStable(s, Key(r));
      AlikeIsOfKey(s, r);
      AlikeIsOfKey(t, r);
    }
  }

  /** And there is no other canonical order. */
  lemma CanonicalIsUnique(s: seq<Good>, t: seq<Good>)
    requires IsCanonical(s, t)
    ensures t == SortByKey(s)
  {
    forall i, j | 0 <= i < j < |t| ensures Leq(Key(t[i]), Key(t[j])) { LeqIsInOrder(t[i], t[j]); }
    forall k: seq<int> ensures OfKey(t, k) == OfKey(SortByKey(s), k) {
      SortStable(s, k);
      SameSublist(s, t, k);
    }
    SortSorted(s);
    SortedIsUnique(t, SortByKey(s));
  }

  lemma SameSublist(s: seq<Good>, t: seq<Good>, k: seq<int>)
    requires IsCanonical(s, t)
    ensures OfKey(t, k) == OfKey(s, k)
  {
    if OfKey(t, k) != [] || OfKey(s, k) != [] {
      var r := if OfKey(t, k) != [] then OfKey(t, k)[0] else OfKey(s, k)[0];
      OfKeyFrom(t, k, r);
      OfKeyFrom(s, k, r);
      AlikeIsOfKey(t, r);
      AlikeIsOfKey(s, r);
    }
  }

  // ---- the ledger ----

  class LedgerIter {
    const file: bytes
    var remaining: nat
    var index: nat
    var finished: bool

    constructor (f: bytes)
      ensures file == f && Valid() && index == 0 && Rest() == f && !finished
    {
      file := f;
      remaining := |f|;
      index := 0;
      finished := false;
    }

    predicate Valid()
      reads this
    {
      remaining <= |file|
    }

    /** The bytes not read yet. */
    function Rest(): bytes
      reads this
      requires Valid()
    {
      file[|file| - remaining..]
    }

    /** Yields the next record, the first fault once, and then nothing. */
    method Next() returns (item: Option<Result<Receipt, LedgerError>>)
      requires Valid()
      modifies this
      ensures Valid() && (old(finished) ==> item.None? && finished)
      ensures !old(finished) && old(Rest()) == [] ==> item.None? && finished
      ensures !old(finished) && 0 < |old(Rest())| < RECEIPT_BYTES ==>
              item == Some(Err(PartialTail(|old(Rest())|))) && finished
      ensures !old(finished) && |old(Rest())| >= RECEIPT_BYTES && old(Rest())[63] != SENTINEL ==>
                item == Some(Err(BadSentinel(old(index), old(Rest())[63]))) && finished
      ensures !old(finished) && |old(Rest())| >= RECEIPT_BYTES && old(Rest())[63] == SENTINEL ==>
                item == Some(Ok(FromBytes(old(Rest())[..RECEIPT_BYTES]))) && !finished
                && index == old(index) + 1 && Rest() == old(Rest())[RECEIPT_BYTES..]
    {
      if finished { return None; }
      if remaining == 0 { finished := true; return None; }
      if remaining < RECEIPT_BYTES {
        finished := true;
        return Some(Err(PartialTail(remaining)));
      }
      var at := |file| - remaining;
      var buf := file[at..at + RECEIPT_BYTES];
      assert buf == Rest()[..RECEIPT_BYTES] && buf[63] == Rest()[63];
      remaining := remaining - RECEIPT_BYTES;
      if buf[63] != SENTINEL {
        finished := true;
        return Some(Err(BadSentinel(index, buf[63])));
      }
      index := index + 1;
      item := Some(Ok(FromBytes(buf)));
    }
  }

  /** One step of collecting: the final result, or one more record. */
  method Pull(it: LedgerIter, recs: seq<Receipt>)
    returns (out: Option<Result<seq<Receipt>, LedgerError>>, more: seq<Receipt>)
    requires it.Valid() && !it.finished
    modifies it
    ensures it.Valid()
    ensures out.Some? ==> out.value == Joined(recs, old(Records(it.Rest(), it.index)))
    ensures out.None? ==> !it.finished && it.remaining < old(it.remaining)
                          && Joined(more, Records(it.Rest(), it.index))
                             == Joined(recs, old(Records(it.Rest(), it.index)))
  {
    more := recs;
    JoinedStep(recs, it.Rest(), it.index);
    var item := it.Next();
    match item {
      case None => out := Some(Ok(recs));
      case Some(Err(e)) => out := Some(Err(e));
      case Some(Ok(x)) => out, more := None, recs + [x];
    }
  }

  class Ledger {
    var file: bytes
    var bytesWritten: nat

    /** open, on whatever the file already holds. */
    constructor (existing: bytes)
      ensures Valid() && file == existing
    {
      file := existing;
      bytesWritten := |existing|;
    }

    predicate Valid()
      reads this
    {
      bytesWritten == |file|
    }

    method Append(r: Receipt) returns (offset: nat)
      requires Valid() && r.Shape()
      modifies this
      ensures Valid() && file == old(file) + AsBytes(r) && offset == |old(file)|
    {
      offset := bytesWritten;
      file := file + AsBytes(r);
      bytesWritten := bytesWritten + RECEIPT_BYTES;
    }

    /** iter, collected up to the first fault. */
    method Collect() returns (r: Result<seq<Receipt>, LedgerError>)
      ensures r == Records(file, 0)
    {
      var it := new LedgerIter(file);
      var recs: seq<Receipt> := [];
      Unjoined(Records(file, 0));
      var out: Option<Result<seq<Receipt>, LedgerError>> := None;
      while out.None?
        invariant it.Valid() && fresh(it)
        invariant out.None? ==> !it.finished && Records(file, 0) == Joined(recs, Records(it.Rest(), it.index))
        invariant out.Some? ==> out.value == Records(file, 0)
        decreases if out.None? then it.remaining + 1 else 0
      {
        out, recs := Pull(it, recs);
      }
      r := out.value;
    }

    /** canonical_sort. */
    method CanonicalSort() returns (r: Result<seq<Good>, LedgerError>)
      ensures r.Err? <==> Records(file, 0).Err?
      ensures r.Err? ==> r.error == Records(file, 0).error
      ensures r.Ok? ==> Sound(Records(file, 0).value) && r.value == SortByKey(Records(file, 0).value)
                        && IsCanonical(Records(file, 0).value, r.value)
    {
      var c := Collect();
      match c
      case Err(e) => return Err(e);
      case Ok(recs) =>
        RecordsAreSound(file, 0);
        SortIsCanonical(recs);
        return Ok(SortByKey(recs));
    }

    method AppendAll(recs: seq<Good>)
      requires Valid()
      modifies this
      ensures Valid() && file == old(file) + FileOf(recs)
    {
      assert file + [] == file;
      for i := 0 to |recs|
        invariant Valid() && file == old(file) + FileOf(recs[..i])
      {
        var offset := Append(recs[i]);
        FileOfSnoc(recs[..i], recs[i]);
        assert recs[..i + 1] == recs[..i] + [recs[i]];
        Assoc(old(file), FileOf(recs[..i]), AsBytes(recs[i]));
      }
      assert recs[..|recs|] == recs;
    }

    /** replay_canonical_into: nothing is written when the source has a fault. */
    method ReplayCanonicalInto(dest: Ledger) returns (r: Result<nat, LedgerError>)
      requires dest != this && dest.Valid()
      modifies dest
      ensures dest.Valid() && (r.Err? <==> Records(file, 0).Err?)
      ensures r.Err? ==> dest.file == old(dest.file) && r.error == Records(file, 0).error
      ensures r.Ok? ==> Sound(Records(file, 0).value) && r.value == |Records(file, 0).value|
                        && dest.file == old(dest.file) + FileOf(SortByKey(Records(file, 0).value))
    {
      var c := CanonicalSort();
      match c
      case Err(e) => return Err(e);
      case Ok(recs) =>
        dest.AppendAll(recs);
        return Ok(|recs|);
    }

    /** replay_from: copies exactly the records before the first fault. */
    method ReplayFrom(source: Ledger) returns (r: Result<nat, LedgerError>)
      requires source != this && Valid()
      modifies this
      ensures Valid() && (r.Ok? <==> Records(source.file, 0).Ok?)
      ensures r.Ok? ==> file == old(file) + source.file && RECEIPT_BYTES * r.value == |source.file|
      ensures r.Err? ==> r.error == Records(source.file, 0).error
      ensures r.Err? ==> 0 <= FaultAt(source.file, r.error) <= |source.file|
                         && file == old(file) + source.file[..FaultAt(source.file, r.error)]
    {
      var it := new LedgerIter(source.file);
      var count, more, fault := 0, true, None;
      ghost var n: nat := 0;
      assert source.file[..0] == [] && file + [] == file;
      while more
        invariant Valid() && it.Valid() && fresh(it) && it.file == source.file
        invariant Copied(old(file), source.file, file, n) && RECEIPT_BYTES * count == n
        invariant more ==> !it.finished && n == |source.file| - it.remaining == RECEIPT_BYTES * it.index
                           && SameOutcome(Records(source.file, 0), Records(it.Rest(), it.index))
        invariant !more ==> Stopped(source.file, n, fault)
        decreases if more then it.remaining + 1 else 0
      {
        more, fault := CopyOne(it);
        if more {
          OneMore(old(file), source.file, n);
          count, n := count + 1, n + RECEIPT_BYTES;
        }
      }
      assert source.file[..|source.file|] == source.file;
      r := match fault case None => Ok(count) case Some(e) => Err(e);
    }

    /** Appends the next record of an iteration; a fault or the end stops. */
    method CopyOne(it: LedgerIter) returns (more: bool, fault: Option<LedgerError>)
      requires Valid() && it.Valid() && !it.finished
      modifies this, it
      ensures Valid() && it.Valid()
      ensures more ==> it.index == old(it.index) + 1
      ensures !more && fault.Some? ==>
                || fault.value == PartialTail(|old(it.Rest())|)
                || (fault.value.BadSentinel? && fault.value.index == old(it.index))
      ensures more ==> !it.finished && |old(it.Rest())| >= RECEIPT_BYTES
                       && it.remaining + RECEIPT_BYTES == old(it.remaining)
                       && file == old(file) + old(it.Rest())[..RECEIPT_BYTES]
                       && SameOutcome(old(Records(it.Rest(), it.index)), Records(it.Rest(), it.index))
      ensures !more ==> file == old(file)
      ensures !more ==> match fault
                        case None => old(it.Rest()) == []
                        case Some(e) => old(Records(it.Rest(), it.index)) == Err(e)
    {
      ghost var rest := it.Rest();
      var item := it.Next();
      match item {
        case None => more, fault := false, None;
        case Some(Err(e)) => more, fault := false, Some(e);
        case Some(Ok(x)) =>
          WriteRead(rest[..RECEIPT_BYTES]);
          var offset := Append(x);
          more, fault := true, None;
      }
    }

    /** broadcast_to_peers: the records from a byte offset on; a fault before it goes unnoticed. */
    method BroadcastToPeers(since: nat) returns (r: Result<seq<Receipt>, LedgerError>)
      ensures since % RECEIPT_BYTES != 0 ==> r == Err(BadOffset)
      ensures since % RECEIPT_BYTES == 0 ==>
                r == Records(if since <= |file| then file[since..] else [], since / RECEIPT_BYTES)
    {
      if since % RECEIPT_BYTES != 0 { return Err(BadOffset); }
      var at: nat, idx: nat, recs: seq<Receipt> := since, since / RECEIPT_BYTES, [];
      if since > |file| { return Ok([]); }
      ghost var all := Records(file[since..], idx);
      Unjoined(all);
      while at < |file|
        invariant since <= at <= |file|
        invariant all == Joined(recs, Records(file[at..], idx))
        decreases |file| - at
      {
        var rest := file[at..];
        JoinedStep(recs, rest, idx);
        if |rest| < RECEIPT_BYTES { return Err(PartialTail(|rest|)); }
        var buf := rest[..RECEIPT_BYTES];
        if buf[63] != SENTINEL { return Err(BadSentinel(idx, buf[63])); }
        assert rest[RECEIPT_BYTES..] == file[at + RECEIPT_BYTES..];
        recs, idx, at := recs + [FromBytes(buf)], idx + 1, at + RECEIPT_BYTES;
      }
      JoinedStep(recs, file[at..], idx);
      r := Ok(recs);
    }
  }

  /** Where in the file a fault lies. */
  function FaultAt(file: bytes, e: LedgerError): int {
    match e
    case BadSentinel(i, _) => RECEIPT_BYTES * i
    case PartialTail(extra) => |file| - extra
    case BadOffset => 0
  }

  /** The file grew by the first n bytes of the source. */
  predicate Copied(before: bytes, source: bytes, file: bytes, n: nat) {
    n <= |source| && file == before + source[..n]
  }

  /** The copying stopped at the end or at the first fault. */
  predicate Stopped(source: bytes, n: nat, fault: Option<LedgerError>) {
    match fault
    case None => n == |source| && Records(source, 0).Ok?
    case Some(e) => Records(source, 0) == Err(e) && n == FaultAt(source, e)
  }

  /** Both read without fault, or both end in the same fault. */
  ghost predicate SameOutcome(a: Result<seq<Receipt>, LedgerError>, b: Result<seq<Receipt>, LedgerError>) {
    (a.Ok? <==> b.Ok?) && (a.Err? ==> a == b)
  }

  /** Records already collected in front of a reading. */
  function Joined(recs: seq<Receipt>, rest: Result<seq<Receipt>, LedgerError>): Result<seq<Receipt>, LedgerError> {
    match rest
    case Err(e) => Err(e)
    case Ok(more) => Ok(recs + more)
  }

  lemma Unjoined(rest: Result<seq<Receipt>, LedgerError>)
    ensures Joined([], rest) == rest
  {
    if rest.Ok? { assert [] + rest.value == rest.value; }
  }

  lemma JoinedStep(recs: seq<Receipt>, rest: bytes, index: nat)
    ensures rest == [] ==> Joined(recs, Records(rest, index)) == Ok(recs)
    ensures |rest| >= RECEIPT_BYTES && rest[63] == SENTINEL ==>
              Joined(recs, Records(rest, index))
              == Joined(recs + [FromBytes(rest[..RECEIPT_BYTES])], Records(rest[RECEIPT_BYTES..], index + 1))
  {
    assert recs + [] == recs;
    if |rest| >= RECEIPT_BYTES && rest[63] == SENTINEL {
      var more := Records(rest[RECEIPT_BYTES..], index + 1);
      if more.Ok? { Assoc(recs, [FromBytes(rest[..RECEIPT_BYTES])], more.value); }
    }
  }

  lemma OneMore(before: bytes, file: bytes, at: nat)
    requires at + RECEIPT_BYTES <= |file|
    ensures before + file[..at] + file[at..][..RECEIPT_BYTES] == before + file[..at + RECEIPT_BYTES]
  {
    assert file[..at + RECEIPT_BYTES] == file[..at] + file[at..][..RECEIPT_BYTES];
  }

  // ---- convergence ----

  /**
   * Two sound ledger files whose records are permutations of each other, a key identifying its
   * record, replay into empty ledgers as the same bytes.
   */
  lemma ReplaysConverge(f: bytes, g: bytes)
    requires Records(f, 0).Ok? && Records(g, 0).Ok?
    requires multiset(Records(f, 0).value) == multiset(Records(g, 0).value)
    requires Sound(Records(f, 0).value) && Sound(Records(g, 0).value) && KeysIdentify(Records(f, 0).value)
    ensures FileOf(SortByKey(Records(f, 0).value)) == FileOf(SortByKey(Records(g, 0).value))
    ensures Records(FileOf(SortByKey(Records(f, 0).value)), 0) == Ok(SortByKey(Records(f, 0).value))
    ensures multiset(SortByKey(Records(f, 0).value)) == multiset(Records(f, 0).value)
  {
    var a, b: seq<Good> := Records(f, 0).value, Records(g, 0).value;
    PermutedSortEqually(a, b);
    ReadRecords(SortByKey(a), 0);
    SortMultiset(a);
  }

  /** Replayed files are equal exactly when the sources agree on the order of records with equal keys. */
  lemma FilesEqualIff(a: seq<Good>, b: seq<Good>)
    ensures FileOf(SortByKey(a)) == FileOf(SortByKey(b)) <==> SameByKey(a, b)
  {
    ReadRecords(SortByKey(a), 0);
    ReadRecords(SortByKey(b), 0);
    SameOrderIff(a, b);
  }

  /** Canonical replay is idempotent. */
  lemma CanonicalIsFixed(a: seq<Good>)
    ensures SortByKey(SortByKey(a)) == SortByKey(a)
  {
    forall k: seq<int> ensures OfKey(SortByKey(a), k) == OfKey(a, k) {
      SortStable(a, k);
    }
    SameSort(SortByKey(a), a);
  }
}
