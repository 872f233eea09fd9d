/** The run-length counters of dedup_merge.cpp, fed with blocks in checksum order. */
module Histogram {
  import opened Bytes
  import opened TraceTypes
  import opened Merge

  // ---------- what the counters mean ----------

  function Occurrences(s: seq<Block>, ck: Checksum): nat {
    if s == [] then 0 else Occurrences(s[..|s| - 1], ck) + if s[|s| - 1].cksum == ck then 1 else 0
  }

  function Distinct(s: seq<Block>): set<Checksum> {
    set b | b in s :: b.cksum
  }

  /** The distinct checksums that occur exactly d times. */
  function WithCount(s: seq<Block>, d: nat): set<Checksum> {
    set ck | ck in Distinct(s) && Occurrences(s, ck) == d
  }

  function Get(m: map<nat, int>, k: nat): int {
    if k in m then m[k] else 0
  }

  function Added(m: map<nat, int>, k: nat, v: int): map<nat, int> {
    m[k := Get(m, k) + v]
  }

  /** The sum of f(k, m[k]) over all keys. */
  ghost function SumBy(m: map<nat, int>, f: (nat, int) -> int): int
  {
    if m == map[] then 0 else
      var k :| k in m;
      f(k, m[k]) + SumBy(m - {k}, f)
  }

  ghost function Values(m: map<nat, int>): int {
    SumBy(m, (k: nat, v: int) => v)
  }

  /** Each entry weighted with its key: the number of records that blk_count accounts for. */
  ghost function Weighted(m: map<nat, int>): int {
    SumBy(m, (k: nat, v: int) => k * v)
  }

  lemma {:induction false} SumBySplits(m: map<nat, int>, k: nat, f: (nat, int) -> int)
    requires k in m
    ensures SumBy(m, f) == f(k, m[k]) + SumBy(m - {k}, f)
    decreases |m|
  {
    var j :| j in m && SumBy(m, f) == f(j, m[j]) + SumBy(m - {j}, f);
    if j != k {
      SumBySplits(m - {j}, k, f);
      SumBySplits(m - {k}, j, f);
      assert m - {j} - {k} == m - {k} - {j};
    }
  }

  lemma SumByAdds(m: map<nat, int>, k: nat, v: int, f: (nat, int) -> int)
    requires f(k, 0) == 0
    ensures SumBy(Added(m, k, v), f) == SumBy(m, f) + f(k, Get(m, k) + v) - f(k, Get(m, k))
  {
    var m' := Added(m, k, v);
    SumBySplits(m', k, f);
    assert m' - {k} == m - {k};
    if k in m {
      SumBySplits(m, k, f);
    } else {
      assert m - {k} == m;
    }
  }

  lemma ValuesAdd(m: map<nat, int>, k: nat, v: int)
    ensures Values(Added(m, k, v)) == Values(m) + v
  {
    SumByAdds(m, k, v, (k: nat, v: int) => v);
  }

  lemma WeightedAdd(m: map<nat, int>, k: nat, v: int)
    ensures Weighted(Added(m, k, v)) == Weighted(m) + k * v
  {
    SumByAdds(m, k, v, (k: nat, v: int) => k * v);
    assert k * (Get(m, k) + v) == k * Get(m, k) + k * v;
  }

  // ---------- one more block ----------

  lemma {:induction false} OccurrencesPositive(s: seq<Block>, ck: Checksum)
    ensures Occurrences(s, ck) > 0 <==> ck in Distinct(s)
  {
    if s != [] {
      var t, b := s[..|s| - 1], s[|s| - 1];
      OccurrencesPositive(t, ck);
      DistinctAppend(t, b);
      assert s == t + [b];
    }
  }

  lemma DistinctAppend(s: seq<Block>, b: Block)
    ensures Distinct(s + [b]) == Distinct(s) + {b.cksum}
  {
    forall ck
      ensures ck in Distinct(s + [b]) <==> ck in Distinct(s) + {b.cksum}
    {
      assert b in s + [b];
      assert forall x :: x in s ==> x in s + [b];
    }
  }

  lemma OccurrencesAppend(s: seq<Block>, b: Block, ck: Checksum)
    ensures Occurrences(s + [b], ck) == Occurrences(s, ck) + if b.cksum == ck then 1 else 0
  {
    assert (s + [b])[..|s|] == s;
  }

  /** Apart from the checksum of b, the counts of s + [b] are those of s. */
  lemma WithCountAppend(s: seq<Block>, b: Block, d: nat)
    ensures WithCount(s + [b], d) - {b.cksum} == WithCount(s, d) - {b.cksum}
  {
    DistinctAppend(s, b);
    forall ck | ck != b.cksum
      ensures ck in WithCount(s + [b], d) <==> ck in WithCount(s, d)
    {
      OccurrencesAppend(s, b, ck);
    }
  }

  lemma WithoutOne(s: seq<Block>, ck: Checksum, d: nat)
    requires ck in Distinct(s)
    ensures |WithCount(s, d)| == |WithCount(s, d) - {ck}| + if Occurrences(s, ck) == d then 1 else 0
  {
    if Occurrences(s, ck) == d {
      assert WithCount(s, d) == (WithCount(s, d) - {ck}) + {ck};
    } else {
      assert WithCount(s, d) - {ck} == WithCount(s, d);
    }
  }

  /** In checksum order, a block that differs from the last one has not occurred at all. */
  lemma NewInOrder(s: seq<Block>, b: Block)
    requires SortedByHash(s + [b]) && s != [] && b.cksum != s[|s| - 1].cksum
    ensures b.cksum !in Distinct(s)
  {
    if b.cksum in Distinct(s) {
      var x :| x in s && x.cksum == b.cksum;
      var i :| 0 <= i < |s| && s[i] == x;
      var t := s + [b];
      assert t[i] == x && t[|s| - 1] == s[|s| - 1] && t[|s|] == b;
      ChecksumOrder(b.cksum, s[|s| - 1].cksum);
    }
  }

  predicate SizesAgree(s: seq<Block>) {
    forall i, j :: 0 <= i < |s| && 0 <= j < |s| && s[i].cksum == s[j].cksum ==> s[i].size == s[j].size
  }

  predicate Countable(s: seq<Block>) {
    SortedByHash(s) && forall i :: 0 <= i < |s| ==> 0 < s[i].size && Comparable(s[i])
  }

  /** blk_count when the run of ck is still open, or when no run is: one entry too many stands at 1. */
  ghost predicate CountsAllBut(m: map<nat, int>, fed: seq<Block>, open: set<Checksum>) {
    forall d: nat :: Get(m, d) == |WithCount(fed, d) - open| + if d == 1 then 1 else 0
  }

  lemma GetAdded(m: map<nat, int>, k: nat, v: int, d: nat)
    ensures Get(Added(m, k, v), d) == Get(m, d) + if d == k then v else 0
  {
  }

  lemma CloseRun(m: map<nat, int>, fed: seq<Block>, ck: Checksum)
    requires CountsAllBut(m, fed, {ck}) && ck in Distinct(fed)
    ensures CountsAllBut(Added(m, Occurrences(fed, ck), 1), fed, {})
  {
    hide Get, Added, WithCount, Occurrences, Distinct;
    forall d: nat
      ensures Get(Added(m, Occurrences(fed, ck), 1), d) == |WithCount(fed, d) - {}| + if d == 1 then 1 else 0
    {
      GetAdded(m, Occurrences(fed, ck), 1, d);
      WithoutOne(fed, ck, d);
      assert WithCount(fed, d) - {} == WithCount(fed, d);
    }
  }

  lemma OpenRun(m: map<nat, int>, fed: seq<Block>, b: Block)
    requires CountsAllBut(m, fed, {}) && b.cksum !in Distinct(fed)
    ensures CountsAllBut(m, fed + [b], {b.cksum})
  {
    forall d: nat
      ensures WithCount(fed + [b], d) - {b.cksum} == WithCount(fed, d) - {}
    {
      hide Get, Occurrences, Distinct, CountsAllBut;
      WithCountAppend(fed, b, d);
      assert b.cksum !in WithCount(fed, d);
    }
    hide WithCount, Get;
  }

  lemma ContinueRun(m: map<nat, int>, fed: seq<Block>, b: Block)
    requires CountsAllBut(m, fed, {b.cksum})
    ensures CountsAllBut(m, fed + [b], {b.cksum})
  {
    forall d: nat
      ensures WithCount(fed + [b], d) - {b.cksum} == WithCount(fed, d) - {b.cksum}
    {
      WithCountAppend(fed, b, d);
    }
  }

  lemma FirstRun(m: map<nat, int>)
    requires m == map[]
    ensures CountsAllBut(Added(m, 1, 1), [], {})
    ensures Weighted(m) == Values(m) == 0 && SumSizes([]) == 0
    ensures Scaled(m, m)
  {
    assert Distinct([]) == {};
  }

  lemma LastOccurs(s: seq<Block>)
    requires s != []
    ensures Occurrences(s, s[|s| - 1].cksum) > 0
  {
  }

  /** Each entry of sizes is that of dedups, times its key. */
  ghost predicate Scaled(sizes: map<nat, int>, dedups: map<nat, int>) {
    forall d: nat :: Get(sizes, d) == d * Get(dedups, d)
  }

  lemma ScaledEntries(sizes: map<nat, int>, dedups: map<nat, int>, k: nat, v: int)
    requires Scaled(sizes, dedups)
    ensures Scaled(Added(sizes, k, v * k), Added(dedups, k, v))
  {
    hide Get, Added;
    forall d: nat
      ensures Get(Added(sizes, k, v * k), d) == d * Get(Added(dedups, k, v), d)
    {
      GetAdded(sizes, k, v * k, d);
      GetAdded(dedups, k, v, d);
      assert d == k ==> d * (Get(dedups, d) + v) == d * Get(dedups, d) + v * k;
    }
  }

  // ---------- sizes by number of occurrences ----------

  function Sized(b: Block): (Checksum, nat) {
    (b.cksum, b.size)
  }

  /** The distinct checksums with their sizes. */
  function SizedBlocks(s: seq<Block>): set<(Checksum, nat)> {
    set b | b in s :: Sized(b)
  }

  /** Those that occur exactly d times. */
  function SizedWith(s: seq<Block>, d: nat): set<(Checksum, nat)> {
    set b | b in s && Occurrences(s, b.cksum) == d :: Sized(b)
  }

  ghost function Total(s: set<(Checksum, nat)>): nat {
    if s == {} then 0 else
      var x :| x in s;
      x.1 + Total(s - {x})
  }

  lemma {:induction false} TotalSplits(s: set<(Checksum, nat)>, x: (Checksum, nat))
    requires x in s
    ensures Total(s) == x.1 + Total(s - {x})
    decreases |s|
  {
    var y :| y in s && Total(s) == y.1 + Total(s - {y});
    if y != x {
      TotalSplits(s - {y}, x);
      TotalSplits(s - {x}, y);
      assert s - {y} - {x} == s - {x} - {y};
    }
  }

  /**
   * If equal checksums imply equal sizes: m holds at d the total size of the distinct blocks that occur d times,
   * apart from the open ones, and total is the size of all distinct blocks.
   */
  ghost predicate SizesAllBut(m: map<nat, int>, total: nat, fed: seq<Block>, open: set<(Checksum, nat)>) {
    SizesAgree(fed) ==>
      && (forall d: nat :: Get(m, d) == Total(SizedWith(fed, d) - open))
      && total == Total(SizedBlocks(fed))
  }

  lemma SizedInto(s: seq<Block>, d: nat, x: (Checksum, nat))
    ensures x in SizedWith(s, d) <==> x in SizedBlocks(s) && Occurrences(s, x.0) == d
  {
  }

  lemma SizedAppend(s: seq<Block>, b: Block)
    ensures SizedBlocks(s + [b]) == SizedBlocks(s) + {Sized(b)}
  {
    assert b in s + [b];
    assert forall x :: x in s + [b] <==> x in s || x == b;
  }

  lemma SizedOnce(s: seq<Block>, b: Block, x: (Checksum, nat))
    requires SizesAgree(s) && b in s && x in SizedBlocks(s) && x.0 == b.cksum
    ensures x == Sized(b)
  {
  }

  lemma SizedWithAppend(s: seq<Block>, b: Block, d: nat)
    requires SizesAgree(s + [b])
    ensures SizedWith(s + [b], d) - {Sized(b)} == SizedWith(s, d) - {Sized(b)}
  {
    hide SizedWith, SizedBlocks, Occurrences, SizesAgree;
    forall x | x != Sized(b)
      ensures x in SizedWith(s + [b], d) <==> x in SizedWith(s, d)
    {
      SizedInto(s, d, x);
      SizedInto(s + [b], d, x);
      SizedAppend(s, b);
      OccurrencesAppend(s, b, x.0);
      if x.0 == b.cksum && x in SizedBlocks(s + [b]) {
        SizedOnce(s + [b], b, x);
      }
    }
  }

  /** If equal checksums imply equal sizes, only the open run of n blocks is missing from the sums of the counters. */
  ghost predicate SumsAllBut(sizes: map<nat, int>, dedups: map<nat, int>, total: nat, fed: seq<Block>,
                             size: nat, n: nat)
  {
    SizesAgree(fed) ==> Values(sizes) == SumSizes(fed) - size * n && Values(dedups) == total - size
  }

  lemma ContinueSums(sizes: map<nat, int>, dedups: map<nat, int>, total: nat, fed: seq<Block>, b: Block, n: nat)
    requires fed != [] && fed[|fed| - 1].cksum == b.cksum
    requires SumsAllBut(sizes, dedups, total, fed, fed[|fed| - 1].size, n)
    ensures SumsAllBut(sizes, dedups, total, fed + [b], b.size, n + 1)
  {
    hide SumBy, SumSizes, SizesAgree;
    if SizesAgree(fed + [b]) {
      SizesAgreePrefix(fed, b);
      SumSizesAppend(fed, b);
      assert b.size * (n + 1) == b.size * n + b.size;
    }
  }

  lemma OpenSums(sizes: map<nat, int>, dedups: map<nat, int>, total: nat, fed: seq<Block>, b: Block)
    requires SumsAllBut(sizes, dedups, total, fed, 0, 0)
    ensures SumsAllBut(sizes, dedups, total + b.size, fed + [b], b.size, 1)
  {
    hide SumBy, SumSizes, SizesAgree;
    if SizesAgree(fed + [b]) {
      SizesAgreePrefix(fed, b);
      SumSizesAppend(fed, b);
    }
  }

  lemma NoSizesYet(m: map<nat, int>)
    requires m == map[]
    ensures SizesAllBut(Added(m, 1, 0), 0, [], {})
  {
    assert SizedBlocks([]) == {} && forall d: nat :: SizedWith([], d) == {};
  }

  lemma CloseSizes(m: map<nat, int>, total: nat, fed: seq<Block>, last: Block)
    requires SizesAllBut(m, total, fed, {Sized(last)}) && last in fed
    ensures SizesAllBut(Added(m, Occurrences(fed, last.cksum), last.size), total, fed, {})
  {
    hide Get, Added, SizedWith, SizedBlocks, Occurrences, SizesAgree, Total;
    var n, x := Occurrences(fed, last.cksum), Sized(last);
    assert x in SizedBlocks(fed) by { InSized(fed, last); }
    if SizesAgree(fed) {
      forall d: nat
        ensures Get(Added(m, n, last.size), d) == Total(SizedWith(fed, d) - {})
      {
        var all := SizedWith(fed, d);
        GetAdded(m, n, last.size, d);
        SizedInto(fed, d, x);
        assert all - {} == all;
        if d == n {
          TotalSplits(all, x);
        } else {
          assert all - {x} == all;
        }
      }
    }
  }

  lemma InSized(s: seq<Block>, b: Block)
    requires b in s
    ensures Sized(b) in SizedBlocks(s)
  {
  }

  lemma OpenSizes(m: map<nat, int>, total: nat, fed: seq<Block>, b: Block)
    requires SizesAllBut(m, total, fed, {}) && b.cksum !in Distinct(fed)
    ensures SizesAllBut(m, total + b.size, fed + [b], {Sized(b)})
  {
    if SizesAgree(fed + [b]) {
      SizesAgreePrefix(fed, b);
      var x := Sized(b);
      assert x !in SizedBlocks(fed);
      hide Get, SizedWith, SizedBlocks, Occurrences, SizesAgree, Total, Distinct;
      forall d: nat
        ensures Get(m, d) == Total(SizedWith(fed + [b], d) - {x})
      {
        SizedWithAppend(fed, b, d);
        SizedInto(fed, d, x);
        assert SizedWith(fed, d) - {x} == SizedWith(fed, d) - {};
      }
      SizedAppend(fed, b);
      TotalSplits(SizedBlocks(fed + [b]), x);
      assert SizedBlocks(fed + [b]) - {x} == SizedBlocks(fed);
    }
  }

  lemma ContinueSizes(m: map<nat, int>, total: nat, fed: seq<Block>, b: Block)
    requires fed != [] && fed[|fed| - 1].cksum == b.cksum
    requires SizesAllBut(m, total, fed, {Sized(fed[|fed| - 1])})
    ensures SizesAllBut(m, total, fed + [b], {Sized(b)})
  {
    hide Get, SizedWith, SizedBlocks, Occurrences, SizesAgree, Total;
    if SizesAgree(fed + [b]) {
      SizesAgreePrefix(fed, b);
      forall d: nat
        ensures Get(m, d) == Total(SizedWith(fed + [b], d) - {Sized(b)})
      {
        SizedWithAppend(fed, b, d);
      }
      SizedAppend(fed, b);
      InSized(fed, fed[|fed| - 1]);
      assert SizedBlocks(fed + [b]) == SizedBlocks(fed);
    }
  }

  // ---------- the common data set written on the way ----------

  predicate Lists(s: seq<Block>, ck: Checksum) {
    exists i :: 0 <= i < |s| && s[i].cksum == ck
  }

  /** b is a block of fed, except for its offset. */
  predicate TakenFrom(fed: seq<Block>, b: Block) {
    exists i :: 0 <= i < |fed| && b == fed[i].(offset := b.offset)
  }

  lemma TakenFromMore(fed: seq<Block>, x: Block, b: Block)
    requires TakenFrom(fed, b)
    ensures TakenFrom(fed + [x], b)
  {
    var i :| 0 <= i < |fed| && b == fed[i].(offset := b.offset);
    assert (fed + [x])[i] == fed[i];
  }

  /**
   * picks lists, in strictly increasing checksum order, exactly the checksums of finished runs that occur
   * at least threshold times. Each pick is a block fed, but with its number of occurrences as its offset.
   */
  ghost predicate Picked(picks: seq<Block>, fed: seq<Block>, open: set<Checksum>, threshold: nat) {
    && (forall i, j :: 0 <= i < j < |picks| ==> Key(picks[i].cksum) < Key(picks[j].cksum))
    && (forall i :: 0 <= i < |picks| ==>
          && picks[i].cksum in Distinct(fed) - open && picks[i].size > 0 && TakenFrom(fed, picks[i])
          && Occurrences(fed, picks[i].cksum) >= threshold
          && picks[i].offset == Occurrences(fed, picks[i].cksum) % TWO_64)
    && (forall ck :: ck in Distinct(fed) - open && Occurrences(fed, ck) >= threshold ==> Lists(picks, ck))
  }

  lemma NothingPicked(threshold: nat)
    ensures Picked([], [], {}, threshold)
  {
    assert Distinct([]) == {};
  }

  /** With a threshold of at most one, the initial, empty block is written before anything else. */
  ghost predicate Written(os: seq<Block>, fed: seq<Block>, open: set<Checksum>, threshold: nat) {
    if threshold <= 1 then os != [] && os[0].size == 0 && Picked(os[1..], fed, open, threshold)
    else Picked(os, fed, open, threshold)
  }

  lemma KeysUpToLast(fed: seq<Block>, ck: Checksum)
    requires SortedByHash(fed) && fed != [] && ck in Distinct(fed)
    ensures Key(ck) <= Key(fed[|fed| - 1].cksum)
  {
    hide Key;
    var b :| b in fed && b.cksum == ck;
  }

  lemma PickRun(picks: seq<Block>, fed: seq<Block>, last: Block, threshold: nat)
    requires fed != [] && Countable(fed) && last == fed[|fed| - 1]
    requires Picked(picks, fed, {last.cksum}, threshold)
    ensures var n := Occurrences(fed, last.cksum);
            Picked(if n >= threshold then picks + [last.(offset := n % TWO_64)] else picks, fed, {}, threshold)
  {
    hide Key, Occurrences, Distinct, Comparable, SortedByHash;
    var n, ck := Occurrences(fed, last.cksum), last.cksum;
    var b := last.(offset := n % TWO_64);
    OccurrencesPositive(fed, ck);
    LastOccurs(fed);
    forall i | 0 <= i < |picks|
      ensures Key(picks[i].cksum) < Key(ck)
    {
      KeysUpToLast(fed, picks[i].cksum);
      ChecksumOrder(picks[i].cksum, ck);
    }
    if n >= threshold {
      assert b == fed[|fed| - 1].(offset := b.offset);
      ListsAppend(picks, b);
      PickedSnoc(picks, fed, b, threshold);
    }
  }

  lemma ListsAppend(s: seq<Block>, b: Block)
    ensures forall ck :: Lists(s + [b], ck) <==> Lists(s, ck) || ck == b.cksum
  {
    var more := s + [b];
    assert more[|s|] == b && forall i :: 0 <= i < |s| ==> more[i] == s[i];
  }

  lemma PickedSnoc(picks: seq<Block>, fed: seq<Block>, b: Block, threshold: nat)
    requires Picked(picks, fed, {b.cksum}, threshold) && b.cksum in Distinct(fed) && b.size > 0 && TakenFrom(fed, b)
    requires b.offset == Occurrences(fed, b.cksum) % TWO_64 && Occurrences(fed, b.cksum) >= threshold
    requires forall i :: 0 <= i < |picks| ==> Key(picks[i].cksum) < Key(b.cksum)
    ensures Picked(picks + [b], fed, {}, threshold)
  {
    hide Key, Occurrences, Distinct, Lists, TakenFrom;
    var more := picks + [b];
    assert more[|picks|] == b && forall i :: 0 <= i < |picks| ==> more[i] == picks[i];
    ListsAppend(picks, b);
  }

  /** What ending the run of blk, of length n, does to the output. */
  lemma WriteRun(os: seq<Block>, fed: seq<Block>, blk: Block, n: nat, threshold: nat)
    requires if fed == [] then os == [] && blk.size == 0 && n == 1
             else Countable(fed) && blk == fed[|fed| - 1] && n == Occurrences(fed, blk.cksum)
    ensures fed == [] || Written(os, fed, {blk.cksum}, threshold) ==>
              Written(if n >= threshold then os + [blk.(offset := n % TWO_64)] else os, fed, {}, threshold)
  {
    hide Picked, Countable;
    NothingPicked(threshold);
    var b := blk.(offset := n % TWO_64);
    if fed == [] {
      assert os + [b] == [b] && [b][1..] == [];
    } else if Written(os, fed, {blk.cksum}, threshold) {
      PickRun(if threshold <= 1 then os[1..] else os, fed, blk, threshold);
      if threshold <= 1 {
        assert (os + [b])[1..] == os[1..] + [b];
      }
    }
  }

  lemma PickedAppend(picks: seq<Block>, fed: seq<Block>, b: Block, threshold: nat)
    requires || (Picked(picks, fed, {}, threshold) && b.cksum !in Distinct(fed))
             || Picked(picks, fed, {b.cksum}, threshold)
    ensures Picked(picks, fed + [b], {b.cksum}, threshold)
  {
    hide Key, Lists, TakenFrom;
    DistinctAppend(fed, b);
    forall i | 0 <= i < |picks|
      ensures TakenFrom(fed + [b], picks[i])
    {
      TakenFromMore(fed, b, picks[i]);
    }
    forall ck
      ensures ck != b.cksum ==> Occurrences(fed + [b], ck) == Occurrences(fed, ck)
    {
      OccurrencesAppend(fed, b, ck);
    }
    hide Occurrences, Distinct;
  }

  lemma WrittenAppend(os: seq<Block>, fed: seq<Block>, b: Block, threshold: nat)
    ensures Written(os, fed, {}, threshold) && b.cksum !in Distinct(fed) ==>
              Written(os, fed + [b], {b.cksum}, threshold)
    ensures Written(os, fed, {b.cksum}, threshold) ==> Written(os, fed + [b], {b.cksum}, threshold)
  {
    hide Picked, Distinct;
    var picks := if threshold > 1 || os == [] then os else os[1..];
    if Picked(picks, fed, {}, threshold) && b.cksum !in Distinct(fed) {
      PickedAppend(picks, fed, b, threshold);
    }
    if Picked(picks, fed, {b.cksum}, threshold) {
      PickedAppend(picks, fed, b, threshold);
    }
  }

  lemma SizesAgreePrefix(s: seq<Block>, b: Block)
    requires SizesAgree(s + [b])
    ensures SizesAgree(s)
    ensures s != [] && s[|s| - 1].cksum == b.cksum ==> s[|s| - 1].size == b.size
  {
    var t := s + [b];
    assert forall i :: 0 <= i < |s| ==> t[i] == s[i];
    assert t[|s|] == b;
  }

  lemma LastComparable(fed: seq<Block>, last: Block)
    requires Countable(fed)
    requires if fed == [] then last.size == 0 else last == fed[|fed| - 1]
    ensures Comparable(last) && (last.size == 0 <==> fed == [])
  {
  }

  class Counter {
    var totalSize: nat
    var dedupSize: nat
    var totalBlocks: nat
    var uniBlocks: nat
    var lastBlk: Block
    var dupCount: nat
    var blkCount: map<nat, int>
    var sizeCount: map<nat, int>
    var dedupCount: map<nat, int>
    const writeCds: bool
    const threshold: nat
    var os: seq<Block>
    /** Every block handed to Count, the end marker included. */
    ghost var counted: seq<Block>

    /** What has been written so far, when writing is on: the finished runs that reach the threshold. */
    ghost predicate Output(fed: seq<Block>, open: set<Checksum>)
      reads `os
    {
      if writeCds then Written(os, fed, open, threshold) else os == []
    }

    /** The totals over the blocks fed, and the counters of all runs but the last, in terms of those blocks. */
    ghost predicate Counted(fed: seq<Block>)
      reads this
    {
      && Countable(fed) && counted == fed
      && totalSize == SumSizes(fed) && totalBlocks == |fed| && uniBlocks == |Distinct(fed)|
      && if fed == [] then Untouched() else lastBlk == fed[|fed| - 1] && Open(fed, lastBlk)
    }

    ghost predicate Untouched()
      reads this
    {
      && lastBlk.size == 0 && dupCount == 1 && dedupSize == 0
      && blkCount == sizeCount == dedupCount == map[] && os == []
    }

    /** The run of the block last is open: the counters hold all runs before it. */
    ghost predicate Open(fed: seq<Block>, last: Block)
      reads `dupCount, `dedupSize, `blkCount, `sizeCount, `dedupCount, `os
    {
      && dupCount == Occurrences(fed, last.cksum) && Scaled(sizeCount, dedupCount)
      && CountsAllBut(blkCount, fed, {last.cksum}) && Output(fed, {last.cksum})
      && Weighted(blkCount) == |fed| - dupCount + 1
      && SumsAllBut(sizeCount, dedupCount, dedupSize, fed, last.size, dupCount)
      && SizesAllBut(dedupCount, dedupSize, fed, {Sized(last)})
    }

    constructor (writeCds: bool, threshold: nat)
      ensures Counted([]) && this.writeCds == writeCds && this.threshold == threshold
    {
      this.writeCds, this.threshold, os, counted := writeCds, threshold, [], [];
      totalSize, dedupSize, totalBlocks, uniBlocks := 0, 0, 0, 0;
      lastBlk, dupCount := Block(seq(CKSUM_LEN, _ => 0), 0, 0, 0), 1;
      blkCount, sizeCount, dedupCount := map[], map[], map[];
    }

    /** The last run is closed too: only the entry too many at 1 is left to correct. */
    ghost predicate Closed(fed: seq<Block>)
      reads `dedupSize, `blkCount, `sizeCount, `dedupCount, `os
    {
      && CountsAllBut(blkCount, fed, {}) && Output(fed, {})
      && Weighted(blkCount) == |fed| + 1
      && Scaled(sizeCount, dedupCount)
      && SumsAllBut(sizeCount, dedupCount, dedupSize, fed, 0, 0)
      && SizesAllBut(dedupCount, dedupSize, fed, {})
    }

    /** The state behind the end marker. Without any block the marker belongs to the run of the initial, empty one. */
    ghost predicate Finished(fed: seq<Block>)
      reads this
    {
      if fed == [] then blkCount == map[]
      else Closed(fed) && totalSize == SumSizes(fed) && totalBlocks == |fed| + 1 && uniBlocks == |Distinct(fed)| + 1
    }

    /** Ends the run of the previous block, or of the initial, empty one: its length enters the histograms. */
    method EndRun(ghost fed: seq<Block>)
      requires Counted(fed)
      modifies `blkCount, `sizeCount, `dedupCount, `os
      ensures Closed(fed)
    {
      hide Scaled, Occurrences, WithCount, Countable, Written, SizesAgree, Get, Added, SumBy, SumSizes, Distinct,
        CountsAllBut, SizesAllBut;
      if fed == [] {
        FirstRun(blkCount);
        NoSizesYet(dedupCount);
      } else {
        assert fed[|fed| - 1].cksum in Distinct(fed) by {
          OccurrencesPositive(fed, fed[|fed| - 1].cksum);
          LastOccurs(fed);
        }
        CloseRun(blkCount, fed, lastBlk.cksum);
        CloseSizes(dedupCount, dedupSize, fed, lastBlk);
      }
      WeightedAdd(blkCount, dupCount, 1);
      ScaledEntries(sizeCount, dedupCount, dupCount, lastBlk.size);
      ValuesAdd(sizeCount, dupCount, lastBlk.size * dupCount);
      ValuesAdd(dedupCount, dupCount, lastBlk.size);
      blkCount := Added(blkCount, dupCount, 1);
      sizeCount := Added(sizeCount, dupCount, lastBlk.size * dupCount);
      dedupCount := Added(dedupCount, dupCount, lastBlk.size);
      WriteRun(os, fed, lastBlk, dupCount, threshold);
      if writeCds && dupCount >= threshold {
        os := os + [lastBlk.(offset := dupCount % TWO_64)];
      }
    }

    /** Another block of the open run, or an end marker with nothing before it. */
    method CountAgain(bl: Block, ghost fed: seq<Block>)
      requires Counted(fed)
      requires fed != [] ==> bl.cksum == lastBlk.cksum && Countable(fed + [bl])
      modifies `dupCount
      ensures fed != [] ==> Open(fed + [bl], bl) && Distinct(fed + [bl]) == Distinct(fed)
    {
      hide Occurrences, SumBy, Distinct, CountsAllBut, Output, Countable, SizesAllBut, SumsAllBut, Sized, Scaled;
      if fed != [] {
        RunGoesOn(fed, bl);
        OccurrencesAppend(fed, bl, bl.cksum);
      }
      dupCount := dupCount + 1;
    }

    /** A block that begins a new run, or the end marker: the run before it can be counted. */
    method CountNew(bl: Block, ghost fed: seq<Block>)
      requires Counted(fed) && (bl.size > 0 ==> Countable(fed + [bl]))
      requires fed != [] && bl.size > 0 ==> bl.cksum != lastBlk.cksum
      modifies `dedupSize, `uniBlocks, `blkCount, `sizeCount, `dedupCount, `os, `dupCount
      ensures uniBlocks == old(uniBlocks) + 1
      ensures if bl.size == 0 then Closed(fed)
              else Open(fed + [bl], bl) && bl.cksum !in Distinct(fed)
    {
      hide Occurrences, SumBy, Distinct, CountsAllBut, Output, Countable, SizesAllBut, SumsAllBut, Sized, Scaled;
      EndRun(fed);
      if bl.size > 0 {
        RunStarts(fed, bl);
        OccurrencesAppend(fed, bl, bl.cksum);
        OccurrencesPositive(fed, bl.cksum);
      }
      dedupSize := dedupSize + bl.size;
      uniBlocks := uniBlocks + 1;
      dupCount := 1;
    }

    /** Counts one block: either the run of the last block goes on, or it ends and bl starts a new one. */
    method Count(bl: Block)
      requires Counted(counted) && Comparable(bl)
      requires bl.size > 0 ==> Countable(counted + [bl])
      modifies this
      ensures counted == old(counted) + [bl]
      ensures bl.size > 0 ==> Counted(counted)
      ensures bl.size == 0 ==> Finished(old(counted))
    {
      hide Open, Closed, SumSizes, BlockCompare, Comparable, Countable, Distinct;
      ghost var fed, more := counted, counted + [bl];
      SumSizesAppend(fed, bl);
      DistinctAppend(fed, bl);
      LastComparable(fed, lastBlk);
      CompareEqual(bl, lastBlk);
      if BlockCompare(bl, lastBlk) == 0 {  // equal checksums, or both end markers
        CountAgain(bl, fed);
      } else {
        CountNew(bl, fed);
      }
      totalSize := totalSize + bl.size;
      totalBlocks := totalBlocks + 1;
      lastBlk := bl;
      counted := more;
    }

    lemma RunGoesOn(fed: seq<Block>, bl: Block)
      requires Counted(fed) && fed != [] && bl.cksum == lastBlk.cksum
      ensures CountsAllBut(blkCount, fed + [bl], {bl.cksum}) && Output(fed + [bl], {bl.cksum})
      ensures Distinct(fed + [bl]) == Distinct(fed)
      ensures SumsAllBut(sizeCount, dedupCount, dedupSize, fed + [bl], bl.size, dupCount + 1)
      ensures SizesAllBut(dedupCount, dedupSize, fed + [bl], {Sized(bl)})
    {
      hide WithCount, Occurrences, SumSizes, SumBy, Get, Countable, Picked, SizesAllBut, SizesAgree;
      ContinueSizes(dedupCount, dedupSize, fed, bl);
      ContinueRun(blkCount, fed, bl);
      WrittenAppend(os, fed, bl, threshold);
      DistinctAppend(fed, bl);
      assert fed[|fed| - 1] in fed;
      ContinueSums(sizeCount, dedupCount, dedupSize, fed, bl, dupCount);
    }

    lemma RunStarts(fed: seq<Block>, bl: Block)
      requires Closed(fed) && Countable(fed + [bl])
      requires fed != [] ==> bl.cksum != fed[|fed| - 1].cksum
      ensures bl.cksum !in Distinct(fed)
      ensures CountsAllBut(blkCount, fed + [bl], {bl.cksum}) && Output(fed + [bl], {bl.cksum})
      ensures SumsAllBut(sizeCount, dedupCount, dedupSize + bl.size, fed + [bl], bl.size, 1)
      ensures SizesAllBut(dedupCount, dedupSize + bl.size, fed + [bl], {Sized(bl)})
    {
      hide WithCount, Occurrences, SumSizes, SumBy, Get, SortedByHash, Picked, SizesAllBut, SizesAgree;
      if fed != [] {
        NewInOrder(fed, bl);
      }
      OpenSizes(dedupCount, dedupSize, fed, bl);
      OpenRun(blkCount, fed, bl);
      WrittenAppend(os, fed, bl, threshold);
      OpenSums(sizeCount, dedupCount, dedupSize, fed, bl);
    }

    /** Takes back the entry that the initial, empty block left at 1. */
    method Correct()
      modifies `blkCount
      ensures blkCount == Added(old(blkCount), 1, -1)
    {
      blkCount := Added(blkCount, 1, -1);
    }
  }

  /** What the final histogram of a record sequence must be. */
  ghost predicate Tallied(m: map<nat, int>, fed: seq<Block>) {
    && (forall d: nat :: Get(m, d) == |WithCount(fed, d)|)
    && Weighted(m) == |fed|
  }

  lemma CorrectedIsTallied(m: map<nat, int>, fed: seq<Block>)
    requires CountsAllBut(m, fed, {}) && Weighted(m) == |fed| + 1
    ensures Tallied(Added(m, 1, -1), fed)
  {
    hide WithCount, Get, Added, SumBy;
    WeightedAdd(m, 1, -1);
    forall d: nat
      ensures Get(Added(m, 1, -1), d) == |WithCount(fed, d)|
    {
      GetAdded(m, 1, -1, d);
      assert WithCount(fed, d) - {} == WithCount(fed, d);
    }
  }
}
