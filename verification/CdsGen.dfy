/** Generating the common data set, dedup_cds_gen.cpp: split by first hash byte, sort, count, take the top. */
module CdsGen {
  import opened Arith
  import opened Bytes
  import opened TraceTypes
  import opened StdSort
  import opened Histogram
  import opened Reordering

  // ---------- run-length counting ----------

  /** merged has one record for each distinct checksum of s, and its file_id is the number of occurrences. */
  ghost predicate CountsOf(merged: seq<Block>, s: seq<Block>) {
    && (forall i, j :: 0 <= i < j < |merged| ==> merged[i].cksum != merged[j].cksum)
    && (forall ck :: Lists(merged, ck) <==> ck in Distinct(s))
    && (forall i :: 0 <= i < |merged| ==> merged[i].fileId == Occurrences(s, merged[i].cksum))
  }

  /** Each record of merged is one of s, but for its file_id. */
  ghost predicate StemsFrom(merged: seq<Block>, s: seq<Block>) {
    forall i :: 0 <= i < |merged| ==> IsRecordOf(merged[i], s)
  }

  lemma StemsReordered(merged: seq<Block>, r: seq<Block>, s: seq<Block>, t: seq<Block>)
    requires StemsFrom(merged, s) && multiset(r) == multiset(merged) && multiset(s) == multiset(t)
    ensures StemsFrom(r, t)
  {
    hide IsRecordOf;
    forall i | 0 <= i < |r|
      ensures IsRecordOf(r[i], t)
    {
      assert r[i] in multiset(r) && r[i] in merged;
      RecordOfReordered(r[i], s, t);
    }
  }

  lemma RecordOfReordered(b: Block, s: seq<Block>, t: seq<Block>)
    requires IsRecordOf(b, s) && multiset(s) == multiset(t)
    ensures IsRecordOf(b, t)
  {
    var k :| 0 <= k < |s| && b == s[k].(fileId := b.fileId);
    assert s[k] in multiset(s) && s[k] in t;
  }

  lemma CountsOfPermuted(merged: seq<Block>, s: seq<Block>, t: seq<Block>)
    requires CountsOf(merged, s) && multiset(s) == multiset(t)
    ensures CountsOf(merged, t)
  {
    DistinctByMultiset(s, t);
    forall i | 0 <= i < |merged|
      ensures merged[i].fileId == Occurrences(t, merged[i].cksum)
    {
      OccurrencesByMultiset(s, t, merged[i].cksum);
    }
  }

  /** Occurrences of each checksum once a whole run of one checksum has been appended. */
  ghost predicate RunAppended(before: seq<Block>, after: seq<Block>, ck: Checksum, count: nat) {
    && Distinct(after) == Distinct(before) + {ck}
    && Occurrences(after, ck) == count
    && forall c :: c != ck ==> Occurrences(after, c) == Occurrences(before, c)
  }

  lemma RunStep(before: seq<Block>, after: seq<Block>, b: Block, count: nat)
    requires RunAppended(before, after, b.cksum, count)
    ensures RunAppended(before, after + [b], b.cksum, count + 1)
  {
    DistinctAppend(after, b);
    forall c
      ensures Occurrences(after + [b], c) == Occurrences(after, c) + if c == b.cksum then 1 else 0
    {
      OccurrencesAppend(after, b, c);
    }
  }

  lemma RunBegins(before: seq<Block>, b: Block)
    requires b.cksum !in Distinct(before)
    ensures RunAppended(before, before + [b], b.cksum, 1)
  {
    OccurrencesPositive(before, b.cksum);
    DistinctAppend(before, b);
    forall c
      ensures Occurrences(before + [b], c) == Occurrences(before, c) + if c == b.cksum then 1 else 0
    {
      OccurrencesAppend(before, b, c);
    }
  }

  lemma CountsExtend(merged: seq<Block>, before: seq<Block>, after: seq<Block>, b: Block)
    requires CountsOf(merged, before) && b.cksum !in Distinct(before)
    requires RunAppended(before, after, b.cksum, b.fileId)
    ensures CountsOf(merged + [b], after)
  {
    hide Occurrences, Distinct;
    var more := merged + [b];
    assert more[|merged|] == b && forall i :: 0 <= i < |merged| ==> more[i] == merged[i];
    forall i | 0 <= i < |merged|
      ensures merged[i].cksum != b.cksum
    {
      assert Lists(merged, merged[i].cksum);
    }
    forall ck
      ensures Lists(more, ck) <==> Lists(merged, ck) || ck == b.cksum
    {
    }
  }

  /** Merges each run of equal checksums of a sorted list into one record that carries its length. */
  method CountRuns(raw: seq<Block>) returns (merged: seq<Block>)
    requires SortedByHash(raw) && |raw| < TWO_32
    ensures CountsOf(merged, raw) && StemsFrom(merged, raw)
  {
    hide Occurrences, Distinct, CountsOf, RunAppended, SortedByHash, IsRecordOf;
    merged := [];
    var j := 0;
    NothingCounted();
    while j < |raw|
      invariant j <= |raw| && CountsOf(merged, raw[..j]) && StemsFrom(merged, raw)
      invariant 0 < j < |raw| ==> raw[j - 1].cksum != raw[j].cksum
    {
      ghost var start := j;
      var count: nat := 1;
      FirstOfRun(raw, j);
      assert raw[..j + 1] == raw[..j] + [raw[j]];
      RunBegins(raw[..start], raw[j]);
      while j + 1 < |raw| && raw[j].cksum == raw[j + 1].cksum
        invariant start <= j < |raw| && count == j - start + 1
        invariant raw[j].cksum == raw[start].cksum
        invariant RunAppended(raw[..start], raw[..j + 1], raw[start].cksum, count)
      {
        j := j + 1;
        assert raw[..j + 1] == raw[..j] + [raw[j]];
        RunStep(raw[..start], raw[..j], raw[j], count);
        count := count + 1;
      }
      var b := raw[j].(fileId := count);
      CountsExtend(merged, raw[..start], raw[..j + 1], b);
      assert IsRecordOf(b, raw) by { RecordAt(raw, j, b); }
      merged := merged + [b];
      j := j + 1;
    }
    assert raw[..j] == raw;
  }

  lemma RecordAt(s: seq<Block>, k: nat, b: Block)
    requires k < |s| && b == s[k].(fileId := b.fileId)
    ensures IsRecordOf(b, s)
  {
  }

  lemma NothingCounted()
    ensures CountsOf([], [])
  {
  }

  lemma FirstOfRun(raw: seq<Block>, j: nat)
    requires SortedByHash(raw) && j < |raw| && (j > 0 ==> raw[j - 1].cksum != raw[j].cksum)
    ensures raw[j].cksum !in Distinct(raw[..j])
  {
    hide Key;
    if j > 0 {
      assert raw[..j + 1] == raw[..j] + [raw[j]];
      NewInOrder(raw[..j], raw[j]);
    }
  }

  // ---------- the order of counting and the selection ----------

  /** From high to low count. */
  predicate SortedByCount(s: seq<Block>) {
    forall i, j :: 0 <= i <= j < |s| ==> s[i].fileId >= s[j].fileId
  }

  method SortByCount(s: seq<Block>) returns (r: seq<Block>)
    ensures SortedByCount(r) && multiset(r) == multiset(s) && |r| == |s|
  {
    r := Sort(s, (b: Block) => 0 - b.fileId);
  }

  predicate DistinctCksums(s: seq<Block>) {
    forall i, j :: 0 <= i < j < |s| ==> s[i].cksum != s[j].cksum
  }

  lemma {:induction false} DistinctCksumsPermuted(s: seq<Block>, t: seq<Block>)
    requires DistinctCksums(s) && multiset(s) == multiset(t)
    ensures DistinctCksums(t)
  {
    forall i, j | 0 <= i < j < |t|
      ensures t[i].cksum != t[j].cksum
    {
      if t[i].cksum == t[j].cksum {
        OccurrencesByMultiset(s, t, t[i].cksum);
        AtMostOnce(s, t[i].cksum);
        OccursTwice(t, i, j);
      }
    }
  }

  lemma {:induction false} AtMostOnce(s: seq<Block>, ck: Checksum)
    requires DistinctCksums(s)
    ensures Occurrences(s, ck) <= 1
  {
    if s != [] {
      var t, b := s[..|s| - 1], s[|s| - 1];
      AtMostOnce(t, ck);
      OccurrencesPositive(t, ck);
      assert ck in Distinct(t) ==> exists i :: 0 <= i < |t| && s[i].cksum == ck;
    }
  }

  lemma OccursTwice(s: seq<Block>, i: nat, j: nat)
    requires i < j < |s| && s[i].cksum == s[j].cksum
    ensures Occurrences(s, s[i].cksum) >= 2
  {
    var ck := s[i].cksum;
    var a, b, c := s[..j], [s[j]], s[j + 1..];
    assert s == a + b + c;
    OccurrencesConcat(a + b, c, ck);
    OccurrencesAppend(a, s[j], ck);
    OccurrencesPositive(a, ck);
    assert a[i] in a;
  }

  lemma CountsOfReordered(merged: seq<Block>, r: seq<Block>, s: seq<Block>)
    requires CountsOf(merged, s) && multiset(r) == multiset(merged)
    ensures CountsOf(r, s)
  {
    hide Occurrences, Distinct;
    DistinctCksumsPermuted(merged, r);
    forall i | 0 <= i < |r|
      ensures r[i].fileId == Occurrences(s, r[i].cksum)
    {
      assert r[i] in multiset(r) && r[i] in merged;
    }
    forall ck
      ensures Lists(r, ck) <==> Lists(merged, ck)
    {
      if Lists(r, ck) {
        var i :| 0 <= i < |r| && r[i].cksum == ck;
        assert r[i] in multiset(r) && r[i] in merged;
      }
      if Lists(merged, ck) {
        var i :| 0 <= i < |merged| && merged[i].cksum == ck;
        assert merged[i] in multiset(merged) && merged[i] in r;
      }
    }
  }

  // ---------- splitting by the first checksum byte ----------

  /** Only new data is counted. */
  predicate IsNew(b: Block) {
    b.fileId == 0
  }

  /** The new records of s. */
  function NewOnly(s: seq<Block>): (r: seq<Block>)
    ensures |r| <= |s|
  {
    if s == [] then [] else
      NewOnly(s[..|s| - 1]) + if IsNew(s[|s| - 1]) then [s[|s| - 1]] else []
  }

  /** The records whose checksum starts with byte i. */
  function Bucket(s: seq<Block>, i: nat): (r: seq<Block>)
    ensures |r| <= |s|
  {
    if s == [] then [] else
      Bucket(s[..|s| - 1], i) + if s[|s| - 1].cksum[0] == i then [s[|s| - 1]] else []
  }

  /** Every record with file_id 0 is kept, as often as it occurs, and no other. */
  lemma {:induction false} NewOnlyKeeps(s: seq<Block>, b: Block)
    ensures multiset(NewOnly(s))[b] == if b.fileId == 0 then multiset(s)[b] else 0
  {
    if s != [] {
      var t, x := s[..|s| - 1], s[|s| - 1];
      NewOnlyKeeps(t, b);
      assert s == t + [x];
    }
  }

  /** Every record whose checksum starts with i is kept, as often as it occurs, and no other. */
  lemma {:induction false} BucketKeeps(s: seq<Block>, i: nat, b: Block)
    ensures multiset(Bucket(s, i))[b] == if b.cksum[0] == i then multiset(s)[b] else 0
  {
    if s != [] {
      var t, x := s[..|s| - 1], s[|s| - 1];
      BucketKeeps(t, i, b);
      assert s == t + [x];
    }
  }

  /** All occurrences of a checksum are in its own bucket. */
  lemma {:induction false} BucketOccurrences(s: seq<Block>, i: nat, ck: Checksum)
    ensures Occurrences(Bucket(s, i), ck) == if ck[0] == i then Occurrences(s, ck) else 0
  {
    if s != [] {
      var t, b := s[..|s| - 1], s[|s| - 1];
      BucketOccurrences(t, i, ck);
      if b.cksum[0] == i {
        OccurrencesAppend(Bucket(t, i), b, ck);
      } else {
        assert Bucket(s, i) == Bucket(t, i);
      }
    }
  }

  method SplitRecords(records: seq<Block>) returns (tmp: array<seq<Block>>)
    ensures fresh(tmp) && tmp.Length == 256
    ensures forall i :: 0 <= i < 256 ==> tmp[i] == Bucket(NewOnly(records), i)
  {
    tmp := new seq<Block>[256](_ => []);
    for k := 0 to |records|
      invariant forall i :: 0 <= i < 256 ==> tmp[i] == Bucket(NewOnly(records[..k]), i)
    {
      hide Bucket, NewOnly;
      var blk := records[k];
      assert records[..k + 1] == records[..k] + [blk];
      SplitStep(records[..k], blk);
      if blk.fileId == 0 {
        tmp[blk.cksum[0]] := tmp[blk.cksum[0]] + [blk];
      }
    }
    assert records[..|records|] == records;
  }

  lemma SplitStep(s: seq<Block>, blk: Block)
    ensures forall i: nat :: Bucket(NewOnly(s + [blk]), i) ==
              Bucket(NewOnly(s), i) + if IsNew(blk) && blk.cksum[0] == i then [blk] else []
  {
    var n := NewOnly(s);
    assert (s + [blk])[..|s|] == s;
    if IsNew(blk) {
      assert NewOnly(s + [blk]) == n + [blk];
      assert (n + [blk])[..|n|] == n;
    } else {
      assert NewOnly(s + [blk]) == n;
    }
  }

  /** Sorts one bucket, counts it and orders the result by count. */
  method ProcessBucket(bucket: seq<Block>) returns (merged: seq<Block>)
    requires |bucket| < TWO_32
    ensures CountsOf(merged, bucket) && StemsFrom(merged, bucket) && SortedByCount(merged)
  {
    hide CountsOf, StemsFrom, Key, Occurrences, Distinct;
    var raw := Sort(bucket, (b: Block) => Key(b.cksum));
    assert SortedByHash(raw);
    var runs := CountRuns(raw);
    merged := SortByCount(runs);
    CountsOfReordered(runs, merged, raw);
    CountsOfPermuted(merged, raw, bucket);
    StemsReordered(runs, merged, raw, bucket);
  }

  lemma ShareBound(n: nat, num: nat, den: nat)
    requires num <= den && den > 0
    ensures (num * n) / den <= n
  {
    var x := num * n;
    var q := x / den;
    Euclid(x, den);
    assert (den - num) * n == den * n - x;
    assert (q - n) * den == q * den - n * den;
    if q > n {
      MultipleAtLeast(q - n, den);
    }
  }

  lemma ShareFloor(x: nat, den: nat)
    requires den > 0
    ensures x / den * den <= x < (x / den + 1) * den
  {
    var q := x / den;
    Euclid(x, den);
    assert (q + 1) * den == q * den + den;
  }

  /** How many of n records a threshold of num/den takes: the product, rounded down. */
  function Share(n: nat, num: nat, den: nat): (k: nat)
    requires num <= den && den > 0
    ensures k <= n && k * den <= num * n < (k + 1) * den
  {
    ShareBound(n, num, den);
    ShareFloor(num * n, den);
    (num * n) / den
  }

  /** The records taken from each bucket, in bucket order. */
  function Taken(merged: seq<seq<Block>>, num: nat, den: nat): seq<Block>
    requires num <= den && den > 0
  {
    if merged == [] then [] else
      var last := merged[|merged| - 1];
      Taken(merged[..|merged| - 1], num, den) + last[..Share(|last|, num, den)]
  }

  /** The set consists of the first records of each bucket, num/den of them, rounded down. */
  ghost predicate TakesShares(cds: seq<Block>, merged: seq<seq<Block>>, num: nat, den: nat) {
    exists parts: seq<seq<Block>> :: |parts| == |merged| && cds == Flatten(parts) && AreShares(parts, merged, num, den)
  }

  ghost predicate AreShares(parts: seq<seq<Block>>, merged: seq<seq<Block>>, num: nat, den: nat)
    requires |parts| == |merged|
  {
    forall i :: 0 <= i < |merged| ==> IsShare(parts[i], merged[i], num, den)
  }

  /** part is what a threshold of num/den takes from the front of whole. */
  predicate IsShare(part: seq<Block>, whole: seq<Block>, num: nat, den: nat) {
    part <= whole && |part| * den <= num * |whole| < (|part| + 1) * den
  }

  lemma FirstShare(whole: seq<Block>, num: nat, den: nat)
    requires num <= den && den > 0
    ensures IsShare(whole[..Share(|whole|, num, den)], whole, num, den)
  {
    hide Share;
  }

  lemma TakenShares(merged: seq<seq<Block>>, num: nat, den: nat)
    requires num <= den && den > 0
    ensures TakesShares(Taken(merged, num, den), merged, num, den)
  {
    hide Taken, AreShares, Flatten;
    var parts := TakenParts(merged, num, den);
  }

  lemma {:induction false} TakenParts(merged: seq<seq<Block>>, num: nat, den: nat) returns (parts: seq<seq<Block>>)
    requires num <= den && den > 0
    ensures |parts| == |merged| && Taken(merged, num, den) == Flatten(parts) && AreShares(parts, merged, num, den)
  {
    if merged == [] {
      parts := [];
    } else {
      hide Share, AreShares, Flatten;
      var front, last := merged[..|merged| - 1], merged[|merged| - 1];
      var some := TakenParts(front, num, den);
      var part := last[..Share(|last|, num, den)];
      OneMoreShare(some, front, part, last, num, den);
      FlattenAppend(some, part);
      parts := some + [part];
      assert front + [last] == merged;
    }
  }

  lemma OneMoreShare(parts: seq<seq<Block>>, front: seq<seq<Block>>, part: seq<Block>, last: seq<Block>,
                     num: nat, den: nat)
    requires num <= den && den > 0 && |parts| == |front| && AreShares(parts, front, num, den)
    requires part == last[..Share(|last|, num, den)]
    ensures AreShares(parts + [part], front + [last], num, den)
  {
    hide Share, IsShare;
    FirstShare(last, num, den);
  }

  /** merged holds, for each bucket of the new records, the counts of its checksums from high to low. */
  ghost predicate Generated(merged: seq<seq<Block>>, records: seq<Block>) {
    && |merged| == 256
    && forall i :: 0 <= i < 256 ==>
         var bucket := Bucket(NewOnly(records), i);
         CountsOf(merged[i], bucket) && StemsFrom(merged[i], bucket) && SortedByCount(merged[i])
  }

  /**
   * The whole generation: each distinct checksum of the new records is listed once, with its multiplicity,
   * and within a bucket nothing that is left out of the common data set has a higher count than what is taken.
   */
  method Generate(records: seq<Block>, num: nat, den: nat) returns (merged: seq<seq<Block>>, cds: seq<Block>)
    requires |records| < TWO_32 && num <= den && den > 0
    ensures Generated(merged, records) && CountsOf(Flatten(merged), NewOnly(records))
    ensures cds == Taken(merged, num, den) && TakesShares(cds, merged, num, den)
    ensures forall i, a, b :: 0 <= i < 256 && 0 <= a < Share(|merged[i]|, num, den) <= b < |merged[i]| ==>
              merged[i][a].fileId >= merged[i][b].fileId
  {
    hide CountsOf, StemsFrom, Bucket, NewOnly, Share, TakesShares;
    var tmp := SplitRecords(records);
    merged, cds := [], [];
    for i := 0 to 256
      invariant |merged| == i && cds == Taken(merged, num, den)
      invariant forall k :: 0 <= k < 256 ==> tmp[k] == Bucket(NewOnly(records), k)
      invariant forall k :: 0 <= k < i ==>
                  var bucket := Bucket(NewOnly(records), k);
                  CountsOf(merged[k], bucket) && StemsFrom(merged[k], bucket) && SortedByCount(merged[k])
    {
      assert |tmp[i]| <= |records|;
      var part := ProcessBucket(tmp[i]);
      ghost var before := merged;
      merged := merged + [part];
      assert merged[..i] == before;
      cds := cds + part[..Share(|part|, num, den)];
    }
    AllBuckets(NewOnly(records), merged);
    TakenShares(merged, num, den);
  }

  // ---------- all buckets together ----------

  /** The records whose checksum starts with a byte below i. */
  function FirstBuckets(s: seq<Block>, i: nat): seq<Block> {
    if i == 0 then [] else FirstBuckets(s, i - 1) + Bucket(s, i - 1)
  }

  lemma {:induction false} FirstBucketsOccurrences(s: seq<Block>, i: nat, ck: Checksum)
    ensures Occurrences(FirstBuckets(s, i), ck) == if ck[0] < i then Occurrences(s, ck) else 0
  {
    hide Bucket;
    if i == 0 {
      assert Occurrences([], ck) == 0;
    } else {
      hide Occurrences;
      FirstBucketsOccurrences(s, i - 1, ck);
      BucketOccurrences(s, i - 1, ck);
      OccurrencesConcat(FirstBuckets(s, i - 1), Bucket(s, i - 1), ck);
    }
  }

  lemma CountsJoin(a: seq<Block>, b: seq<Block>, s: seq<Block>, t: seq<Block>)
    requires CountsOf(a, s) && CountsOf(b, t) && Distinct(s) !! Distinct(t)
    ensures CountsOf(a + b, s + t)
  {
    hide Occurrences;
    var ab, st := a + b, s + t;
    forall ck
      ensures Occurrences(st, ck) == Occurrences(s, ck) + Occurrences(t, ck)
      ensures Occurrences(s, ck) > 0 <==> ck in Distinct(s)
      ensures Occurrences(t, ck) > 0 <==> ck in Distinct(t)
      ensures Occurrences(st, ck) > 0 <==> ck in Distinct(st)
    {
      OccurrencesConcat(s, t, ck);
      OccurrencesPositive(s, ck);
      OccurrencesPositive(t, ck);
      OccurrencesPositive(st, ck);
    }
    JoinedLists(a, b);
    hide Distinct;
    forall i | 0 <= i < |a|
      ensures a[i].cksum in Distinct(s)
    {
      assert Lists(a, a[i].cksum);
    }
    forall i | 0 <= i < |b|
      ensures b[i].cksum in Distinct(t)
    {
      assert Lists(b, b[i].cksum);
    }
    assert forall i :: 0 <= i < |ab| ==> ab[i] == if i < |a| then a[i] else b[i - |a|];
  }

  lemma JoinedLists(a: seq<Block>, b: seq<Block>)
    ensures forall ck :: Lists(a + b, ck) <==> Lists(a, ck) || Lists(b, ck)
  {
    var ab := a + b;
    forall ck
      ensures Lists(ab, ck) <==> Lists(a, ck) || Lists(b, ck)
    {
      if Lists(a, ck) {
        var i :| 0 <= i < |a| && a[i].cksum == ck;
        assert ab[i] == a[i];
      }
      if Lists(b, ck) {
        var i :| 0 <= i < |b| && b[i].cksum == ck;
        assert ab[|a| + i] == b[i];
      }
    }
  }

  lemma {:induction false} SomeBuckets(s: seq<Block>, merged: seq<seq<Block>>, i: nat)
    requires i <= |merged| && forall k :: 0 <= k < i ==> CountsOf(merged[k], Bucket(s, k))
    ensures CountsOf(Flatten(merged[..i]), FirstBuckets(s, i))
  {
    hide CountsOf, Occurrences, Distinct, Bucket;
    if i == 0 {
      NothingCounted();
    } else {
      SomeBuckets(s, merged, i - 1);
      assert merged[..i][..i - 1] == merged[..i - 1];
      var x, y := FirstBuckets(s, i - 1), Bucket(s, i - 1);
      forall ck
        ensures !(ck in Distinct(x) && ck in Distinct(y))
      {
        FirstBucketsOccurrences(s, i - 1, ck);
        BucketOccurrences(s, i - 1, ck);
        OccurrencesPositive(x, ck);
        OccurrencesPositive(y, ck);
      }
      CountsJoin(Flatten(merged[..i - 1]), merged[i - 1], x, y);
    }
  }

  lemma AllBuckets(s: seq<Block>, merged: seq<seq<Block>>)
    requires |merged| == 256 && forall k :: 0 <= k < 256 ==> CountsOf(merged[k], Bucket(s, k))
    ensures CountsOf(Flatten(merged), s)
  {
    hide Occurrences, Distinct, Bucket, Flatten, FirstBuckets;
    SomeBuckets(s, merged, 256);
    assert merged[..256] == merged;
    forall ck
      ensures Occurrences(FirstBuckets(s, 256), ck) == Occurrences(s, ck)
      ensures ck in Distinct(FirstBuckets(s, 256)) <==> ck in Distinct(s)
    {
      FirstBucketsOccurrences(s, 256, ck);
      OccurrencesPositive(FirstBuckets(s, 256), ck);
      OccurrencesPositive(s, ck);
    }
  }

  // ---------- agreement with the merge histogram ----------

  /** How many records carry the count d. */
  function CountWith(merged: seq<Block>, d: nat): nat {
    if merged == [] then 0 else
      CountWith(merged[..|merged| - 1], d) + if merged[|merged| - 1].fileId == d then 1 else 0
  }

  function CksumsWith(merged: seq<Block>, d: nat): set<Checksum> {
    set b | b in merged && b.fileId == d :: b.cksum
  }

  lemma CksumsWithAppend(t: seq<Block>, b: Block, d: nat)
    ensures CksumsWith(t + [b], d) == CksumsWith(t, d) + if b.fileId == d then {b.cksum} else {}
  {
    var m := t + [b];
    assert m[|t|] == b;
    assert forall x :: x in m <==> x in t || x == b;
  }

  lemma LastIsNew(merged: seq<Block>, d: nat)
    requires DistinctCksums(merged) && merged != []
    ensures DistinctCksums(merged[..|merged| - 1])
    ensures merged[|merged| - 1].cksum !in CksumsWith(merged[..|merged| - 1], d)
  {
    var t := merged[..|merged| - 1];
    assert forall i :: 0 <= i < |t| ==> t[i] == merged[i] && t[i].cksum != merged[|t|].cksum;
  }

  lemma {:induction false} CountWithIsSize(merged: seq<Block>, d: nat)
    requires DistinctCksums(merged)
    ensures CountWith(merged, d) == |CksumsWith(merged, d)|
  {
    if merged != [] {
      hide CksumsWith, DistinctCksums;
      var t, b := merged[..|merged| - 1], merged[|merged| - 1];
      LastIsNew(merged, d);
      CountWithIsSize(t, d);
      assert merged == t + [b];
      CksumsWithAppend(t, b, d);
    }
  }

  /** The two independent ways of counting agree: merged lists as many checksums with count d as blk_count says. */
  lemma AgreesWithMerge(merged: seq<Block>, records: seq<Block>, blkCount: map<nat, int>, fed: seq<Block>, d: nat)
    requires CountsOf(merged, records) && Tallied(blkCount, fed) && multiset(fed) == multiset(records)
    ensures CountWith(merged, d) == Get(blkCount, d)
  {
    hide Occurrences, Distinct, Get;
    CountWithIsSize(merged, d);
    CountsOfPermuted(merged, records, fed);
    forall ck
      ensures ck in CksumsWith(merged, d) <==> ck in WithCount(fed, d)
    {
      if Lists(merged, ck) {
        var i :| 0 <= i < |merged| && merged[i].cksum == ck;
        assert merged[i] in merged;
      }
    }
    assert CksumsWith(merged, d) == WithCount(fed, d);
  }
}
