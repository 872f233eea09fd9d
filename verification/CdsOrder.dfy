/**
 * The order of the generated common data set. The simulators search it by hash, but each bucket is written
 * by count, with equal counts in whatever order std::sort leaves them.
 */
module CdsOrder {
  import opened TraceTypes
  import opened Histogram
  import opened CdsGen

  /** What sorting by count may have left instead of merged. */
  ghost predicate Resorted(t: seq<Block>, merged: seq<Block>) {
    |t| == |merged| && multiset(t) == multiset(merged) && SortedByCount(t)
  }

  /** The distinct checksums that occur more than n times. */
  function Above(s: seq<Block>, n: nat): set<Checksum> {
    set ck | ck in Distinct(s) && Occurrences(s, ck) > n
  }

  /**
   * Among the k most frequent checksums, counts fall strictly as hashes grow. Where a hash is no more frequent
   * than a greater one, it stands behind those more frequent than itself, and can come after the greater one;
   * then it must lie outside the first k.
   */
  ghost predicate FallsWithin(s: seq<Block>, k: nat) {
    forall a, b :: a in Distinct(s) && b in Distinct(s) && Inverted(s, a, b) ==> k <= Reach(s, a, b)
  }

  ghost predicate Inverted(s: seq<Block>, a: Checksum, b: Checksum) {
    Key(a) < Key(b) && Occurrences(s, a) <= Occurrences(s, b)
  }

  /** The first place at which a can come out behind b. */
  function Reach(s: seq<Block>, a: Checksum, b: Checksum): nat {
    |Above(s, Occurrences(s, a))| + if Occurrences(s, a) == Occurrences(s, b) then 1 else 0
  }

  // ---------- places in a list ordered by count ----------

  lemma {:induction false} DistinctSize(t: seq<Block>)
    ensures |Distinct(t)| <= |t|
    ensures DistinctCksums(t) ==> |Distinct(t)| == |t|
  {
    if t != [] {
      var u, b := t[..|t| - 1], t[|t| - 1];
      DistinctSize(u);
      assert t == u + [b];
      DistinctAppend(u, b);
      if DistinctCksums(t) {
        assert forall i :: 0 <= i < |u| ==> u[i] == t[i] && u[i].cksum != b.cksum;
        assert b.cksum !in Distinct(u);
      }
    }
  }

  /** The checksums more frequent than n stand in the places before p. */
  lemma AboveIsPrefix(t: seq<Block>, s: seq<Block>, n: nat, p: nat)
    requires CountsOf(t, s) && SortedByCount(t) && p <= |t|
    requires forall i :: 0 <= i < p ==> t[i].fileId > n
    requires forall i :: p <= i < |t| ==> t[i].fileId <= n
    ensures |Above(s, n)| == p
  {
    hide Occurrences;
    var u := t[..p];
    forall ck
      ensures ck in Above(s, n) <==> ck in Distinct(u)
    {
      if ck in Above(s, n) {
        assert Lists(t, ck);
        var i :| 0 <= i < |t| && t[i].cksum == ck;
        assert t[i] == u[i];
      }
      if ck in Distinct(u) {
        var b :| b in u && b.cksum == ck;
        var i :| 0 <= i < |u| && u[i] == b;
        assert t[i].cksum == ck;
        assert Lists(t, ck);
      }
    }
    assert Above(s, n) == Distinct(u);
    DistinctSize(u);
  }

  /** The first place whose count is at most n. */
  lemma {:induction false} FirstAtMost(t: seq<Block>, n: nat, q: nat) returns (p: nat)
    requires SortedByCount(t) && q < |t| && t[q].fileId <= n
    ensures p <= q
    ensures forall i :: 0 <= i < p ==> t[i].fileId > n
    ensures forall i :: p <= i < |t| ==> t[i].fileId <= n
  {
    if q > 0 && t[q - 1].fileId <= n {
      p := FirstAtMost(t, n, q - 1);
    } else {
      p := q;
    }
  }

  lemma AboveReaches(t: seq<Block>, s: seq<Block>, n: nat, q: nat)
    requires CountsOf(t, s) && SortedByCount(t) && q < |t| && t[q].fileId <= n
    ensures |Above(s, n)| <= q
    ensures forall i :: 0 <= i < |Above(s, n)| ==> t[i].fileId > n
    ensures forall i :: |Above(s, n)| <= i < |t| ==> t[i].fileId <= n
  {
    var p := FirstAtMost(t, n, q);
    AboveIsPrefix(t, s, n, p);
  }

  // ---------- one bucket ----------

  /** If counts fall strictly within k, then the first k records are in hash order. */
  lemma FallingIsSorted(t: seq<Block>, s: seq<Block>, k: nat)
    requires CountsOf(t, s) && SortedByCount(t) && k <= |t| && FallsWithin(s, k)
    ensures SortedByHash(t[..k])
  {
    hide Key, Occurrences, Distinct, Above;
    forall i, j | 0 <= i < j < k
      ensures Key(t[i].cksum) <= Key(t[j].cksum)
    {
      var a, b := t[j].cksum, t[i].cksum;
      assert Lists(t, a) && Lists(t, b);
      AboveReaches(t, s, t[j].fileId, j);
      if t[i].fileId == t[j].fileId {
        AboveReaches(t, s, t[j].fileId, i);
      }
      assert Inverted(s, a, b) <==> Key(a) < Key(b);
    }
  }

  function Swap(t: seq<Block>, i: nat, j: nat): (r: seq<Block>)
    requires i < |t| && j < |t|
    ensures |r| == |t| && r[i] == t[j] && r[j] == t[i]
    ensures forall k :: 0 <= k < |t| && k != i && k != j ==> r[k] == t[k]
  {
    t[i := t[j]][j := t[i]]
  }

  lemma SwapResorts(t: seq<Block>, i: nat, j: nat)
    requires SortedByCount(t) && i < |t| && j < |t| && t[i].fileId == t[j].fileId
    ensures Resorted(Swap(t, i, j), t) && SortedByCount(Swap(t, i, j))
  {
  }

  /** A record moves up to the first place g of its count, and the other one to place g or beyond it. */
  lemma SwapUp(t: seq<Block>, g: nat, p: nat, q: nat) returns (u: seq<Block>, o: nat)
    requires SortedByCount(t) && g <= p < |t| && g <= q < |t| && p != q && t[p].fileId == t[q].fileId
    requires forall i :: g <= i < |t| ==> t[i].fileId <= t[p].fileId
    ensures Resorted(u, t) && SortedByCount(u) && g < o < |u| == |t|
    ensures u[g] == t[q] && u[o] == t[p] && u[g + 1].fileId == t[p].fileId
  {
    Ties(t, g, p);
    Ties(t, g, q);
    SwapResorts(t, g, q);
    u, o := Swap(t, g, q), if p == g then q else p;
    hide Swap, Resorted, SortedByCount;
    if g + 1 == q {
      assert u[g + 1] == t[g];
    } else {
      assert u[g + 1] == t[g + 1];
    }
  }

  /** The records at q and p, equal in count and not before the first place g of that count, move to g and g + 1. */
  lemma SwapBoth(t: seq<Block>, g: nat, p: nat, q: nat) returns (r: seq<Block>)
    requires SortedByCount(t) && g <= p < |t| && g <= q < |t| && p != q && t[p].fileId == t[q].fileId
    requires forall i :: g <= i < |t| ==> t[i].fileId <= t[p].fileId
    ensures Resorted(r, t) && g + 1 < |r| && r[g] == t[q] && r[g + 1] == t[p]
  {
    hide SortedByCount, Resorted, Swap;
    var u, o := SwapUp(t, g, p, q);
    SwapResorts(u, g + 1, o);
    r := Swap(u, g + 1, o);
    ResortedTwice(r, u, t);
  }

  lemma Ties(t: seq<Block>, g: nat, p: nat)
    requires SortedByCount(t) && g <= p < |t| && forall i :: g <= i < |t| ==> t[i].fileId <= t[p].fileId
    ensures forall i :: g <= i <= p ==> t[i].fileId == t[p].fileId
  {
  }

  lemma ResortedTwice(r: seq<Block>, u: seq<Block>, t: seq<Block>)
    requires Resorted(r, u) && Resorted(u, t)
    ensures Resorted(r, t)
  {
  }

  lemma Places(t: seq<Block>, s: seq<Block>, a: Checksum, b: Checksum) returns (p: nat, q: nat)
    requires CountsOf(t, s) && a in Distinct(s) && b in Distinct(s)
    ensures p < |t| && t[p].cksum == a && t[p].fileId == Occurrences(s, a)
    ensures q < |t| && t[q].cksum == b && t[q].fileId == Occurrences(s, b)
  {
    hide Occurrences, Distinct;
    assert Lists(t, a) && Lists(t, b);
    p :| 0 <= p < |t| && t[p].cksum == a;
    q :| 0 <= q < |t| && t[q].cksum == b;
  }

  /** A pair in the way can come out in the wrong order. */
  lemma InversionPossible(t: seq<Block>, s: seq<Block>, a: Checksum, b: Checksum) returns (r: seq<Block>, i: nat)
    requires CountsOf(t, s) && SortedByCount(t)
    requires a in Distinct(s) && b in Distinct(s) && Inverted(s, a, b)
    ensures Resorted(r, t) && i < Reach(s, a, b) < |r|
    ensures r[i].cksum == b && r[Reach(s, a, b)].cksum == a
  {
    var p, q := Places(t, s, a, b);
    hide Key, Occurrences, Distinct, Above, CountsOf, Resorted, SortedByCount, Lists;
    var g := |Above(s, t[p].fileId)|;
    AboveReaches(t, s, t[p].fileId, p);
    if t[q].fileId > t[p].fileId {
      SwapResorts(t, g, p);
      r, i := Swap(t, g, p), q;
    } else {
      r := SwapBoth(t, g, p, q);
      i := g;
    }
  }

  /**
   * The first k records of a bucket are in hash order, whatever std::sort does with equal counts, if and only
   * if counts fall strictly within k.
   */
  lemma BucketInHashOrder(merged: seq<Block>, s: seq<Block>, k: nat)
    requires CountsOf(merged, s) && SortedByCount(merged) && k <= |merged|
    ensures (forall t :: Resorted(t, merged) ==> SortedByHash(t[..k])) <==> FallsWithin(s, k)
  {
    hide Key, Occurrences, Distinct, Inverted, Reach, CountsOf;
    if FallsWithin(s, k) {
      forall t | Resorted(t, merged)
        ensures SortedByHash(t[..k])
      {
        CountsOfReordered(merged, t, s);
        FallingIsSorted(t, s, k);
      }
    } else {
      var a, b :| a in Distinct(s) && b in Distinct(s) && Inverted(s, a, b) && k > Reach(s, a, b);
      var t := Unsorted(merged, s, a, b, k);
    }
  }

  lemma Unsorted(merged: seq<Block>, s: seq<Block>, a: Checksum, b: Checksum, k: nat) returns (t: seq<Block>)
    requires CountsOf(merged, s) && SortedByCount(merged) && k <= |merged|
    requires a in Distinct(s) && b in Distinct(s) && Inverted(s, a, b) && k > Reach(s, a, b)
    ensures Resorted(t, merged) && !SortedByHash(t[..k])
  {
    hide Key, Occurrences, Distinct, Reach, CountsOf;
    var i;
    t, i := InversionPossible(merged, s, a, b);
    assert t[..k][i] == t[i] && t[..k][Reach(s, a, b)] == t[Reach(s, a, b)];
  }

  /** When the whole bucket is taken, counts must fall strictly as hashes grow. */
  lemma WholeBucket(s: seq<Block>)
    ensures FallsWithin(s, |Distinct(s)|) <==>
            forall a, b :: a in Distinct(s) && b in Distinct(s) ==> !Inverted(s, a, b)
  {
    hide Key, Occurrences, Distinct;
    forall a, b | a in Distinct(s) && b in Distinct(s) && Inverted(s, a, b)
      ensures Reach(s, a, b) < |Distinct(s)|
    {
      var above := Above(s, Occurrences(s, a));
      if Occurrences(s, a) == Occurrences(s, b) {
        FewerBy(above, Distinct(s), {a, b});
      } else {
        FewerBy(above, Distinct(s), {a});
      }
    }
  }

  lemma FewerBy(x: set<Checksum>, y: set<Checksum>, out: set<Checksum>)
    requires x <= y && out <= y && x !! out
    ensures |x| + |out| <= |y|
  {
    assert y == x + out + (y - x - out);
  }

  // ---------- all buckets ----------

  lemma FirstByteOrders(a: Checksum, b: Checksum)
    ensures a[0] < b[0] ==> Key(a) < Key(b)
  {
    ChecksumOrder(a, b);
  }

  /** The records of part i all start with byte i. */
  ghost predicate ByFirstByte(parts: seq<seq<Block>>) {
    forall i, j :: 0 <= i < |parts| && 0 <= j < |parts[i]| ==> parts[i][j].cksum[0] == i
  }

  ghost predicate AllTaken(parts: seq<seq<Block>>, num: nat, den: nat)
    requires num <= den && den > 0
  {
    forall i :: 0 <= i < |parts| ==> SortedByHash(parts[i][..Share(|parts[i]|, num, den)])
  }

  /** What is taken is in hash order if and only if it is inside every part. */
  lemma {:induction false} TakenSorted(parts: seq<seq<Block>>, num: nat, den: nat)
    requires num <= den && den > 0 && ByFirstByte(parts)
    ensures SortedByHash(Taken(parts, num, den)) <==> AllTaken(parts, num, den)
    ensures forall i :: 0 <= i < |Taken(parts, num, den)| ==> Taken(parts, num, den)[i].cksum[0] < |parts|
  {
    hide Key, Share;
    if parts != [] {
      var front, last := parts[..|parts| - 1], parts[|parts| - 1];
      var x, y := Taken(front, num, den), last[..Share(|last|, num, den)];
      TakenSorted(front, num, den);
      forall i, j | 0 <= i < |x| && 0 <= j < |y|
        ensures Key(x[i].cksum) < Key(y[j].cksum)
      {
        FirstByteOrders(x[i].cksum, y[j].cksum);
      }
      SortedJoin(x, y);
      OneMorePart(front, last, num, den);
      assert parts == front + [last];
    }
  }

  lemma OneMorePart(front: seq<seq<Block>>, last: seq<Block>, num: nat, den: nat)
    requires num <= den && den > 0
    ensures AllTaken(front + [last], num, den) <==>
            AllTaken(front, num, den) && SortedByHash(last[..Share(|last|, num, den)])
  {
    hide Share, SortedByHash;
    var parts := front + [last];
    assert parts[|front|] == last && forall i :: 0 <= i < |front| ==> parts[i] == front[i];
  }

  lemma SortedJoin(x: seq<Block>, y: seq<Block>)
    requires forall i, j :: 0 <= i < |x| && 0 <= j < |y| ==> Key(x[i].cksum) < Key(y[j].cksum)
    ensures SortedByHash(x + y) <==> SortedByHash(x) && SortedByHash(y)
  {
    hide Key;
    var xy := x + y;
    assert forall i :: 0 <= i < |x| ==> xy[i] == x[i];
    assert forall j :: 0 <= j < |y| ==> xy[|x| + j] == y[j];
  }

  /** What sorting the buckets by count may have left. */
  ghost predicate AllResorted(other: seq<seq<Block>>, merged: seq<seq<Block>>) {
    |other| == |merged| && forall i :: 0 <= i < |merged| ==> Resorted(other[i], merged[i])
  }

  /** In each bucket, counts fall strictly within the share that is taken of it. */
  ghost predicate AllFall(records: seq<Block>, num: nat, den: nat)
    requires num <= den && den > 0
  {
    forall i :: 0 <= i < 256 ==>
      var s := Bucket(NewOnly(records), i);
      FallsWithin(s, Share(|Distinct(s)|, num, den))
  }

  lemma CountsSize(t: seq<Block>, s: seq<Block>)
    requires CountsOf(t, s)
    ensures |t| == |Distinct(s)|
  {
    hide Occurrences;
    DistinctSize(t);
    forall ck
      ensures ck in Distinct(t) <==> ck in Distinct(s)
    {
      assert Lists(t, ck) <==> ck in Distinct(t);
    }
    assert Distinct(t) == Distinct(s);
  }

  lemma GeneratedParts(merged: seq<seq<Block>>, records: seq<Block>)
    requires Generated(merged, records)
    ensures ByFirstByte(merged)
  {
    hide Occurrences, Distinct, StemsFrom, Bucket, NewOnly;
    var s := NewOnly(records);
    forall i, j | 0 <= i < |merged| && 0 <= j < |merged[i]|
      ensures merged[i][j].cksum[0] == i
    {
      var ck := merged[i][j].cksum;
      assert Lists(merged[i], ck);
      BucketOccurrences(s, i, ck);
      OccurrencesPositive(Bucket(s, i), ck);
    }
  }

  lemma ResortedGenerated(other: seq<seq<Block>>, merged: seq<seq<Block>>, records: seq<Block>)
    requires Generated(merged, records) && AllResorted(other, merged)
    ensures Generated(other, records)
  {
    hide CountsOf, StemsFrom, Bucket, NewOnly;
    forall i | 0 <= i < 256
      ensures CountsOf(other[i], Bucket(NewOnly(records), i)) && StemsFrom(other[i], Bucket(NewOnly(records), i))
    {
      var bucket := Bucket(NewOnly(records), i);
      CountsOfReordered(merged[i], other[i], bucket);
      StemsReordered(merged[i], other[i], bucket, bucket);
    }
  }

  /**
   * The generated set comes out in hash order, whatever std::sort does with equal counts, if and only if in
   * each bucket the counts fall strictly, as hashes grow, within the share taken of it.
   */
  lemma GeneratedInHashOrder(merged: seq<seq<Block>>, records: seq<Block>, num: nat, den: nat)
    requires Generated(merged, records) && num <= den && den > 0
    ensures (forall other :: AllResorted(other, merged) ==> SortedByHash(Taken(other, num, den))) <==>
            AllFall(records, num, den)
  {
    hide CountsOf, StemsFrom, Bucket, NewOnly, Share, SortedByHash, SortedByCount, FallsWithin, Taken, Distinct,
      Resorted;
    if AllFall(records, num, den) {
      forall other | AllResorted(other, merged)
        ensures SortedByHash(Taken(other, num, den))
      {
        FallingIsTaken(other, merged, records, num, den);
      }
    } else {
      var other := TakenUnsorted(merged, records, num, den);
    }
  }

  lemma FallingIsTaken(other: seq<seq<Block>>, merged: seq<seq<Block>>, records: seq<Block>, num: nat, den: nat)
    requires Generated(merged, records) && num <= den && den > 0
    requires AllResorted(other, merged) && AllFall(records, num, den)
    ensures SortedByHash(Taken(other, num, den))
  {
    hide CountsOf, StemsFrom, Bucket, NewOnly, Share, SortedByHash, SortedByCount, FallsWithin, Taken, Distinct,
      Resorted;
    ResortedGenerated(other, merged, records);
    GeneratedParts(other, records);
    TakenSorted(other, num, den);
    forall i | 0 <= i < 256
      ensures SortedByHash(other[i][..Share(|other[i]|, num, den)])
    {
      var s := Bucket(NewOnly(records), i);
      CountsSize(other[i], s);
      FallingIsSorted(other[i], s, Share(|other[i]|, num, den));
    }
  }

  lemma TakenUnsorted(merged: seq<seq<Block>>, records: seq<Block>, num: nat, den: nat) returns (other: seq<seq<Block>>)
    requires Generated(merged, records) && num <= den && den > 0 && !AllFall(records, num, den)
    ensures AllResorted(other, merged) && !SortedByHash(Taken(other, num, den))
  {
    hide CountsOf, StemsFrom, Bucket, NewOnly, Share, SortedByHash, FallsWithin, Taken, Distinct;
    var i :| 0 <= i < 256 &&
      var s := Bucket(NewOnly(records), i); !FallsWithin(s, Share(|Distinct(s)|, num, den));
    var s := Bucket(NewOnly(records), i);
    CountsSize(merged[i], s);
    var k := Share(|merged[i]|, num, den);
    BucketInHashOrder(merged[i], s, k);
    var t :| Resorted(t, merged[i]) && !SortedByHash(t[..k]);
    other := merged[i := t];
    ResortedGenerated(other, merged, records);
    GeneratedParts(other, records);
    TakenSorted(other, num, den);
    assert other[i] == t;
  }

  // ---------- a set that is out of order ----------

  /** Two records of one checksum and one of a smaller one in the same bucket: the set is never in hash order. */
  method OutOfOrder(a: Block, b: Block) returns (cds: seq<Block>)
    requires a.fileId == 0 && b.fileId == 0 && a.cksum[0] == b.cksum[0] && Key(a.cksum) < Key(b.cksum)
    ensures !SortedByHash(cds)
  {
    hide Key, CountsOf, StemsFrom, SortedByHash, Bucket, NewOnly, Taken, TakesShares;
    var merged;
    merged, cds := Generate([a, b, b], 1, 1);
    CountOrderBreaksHashOrder(merged, a, b);
  }

  lemma CountOrderBreaksHashOrder(merged: seq<seq<Block>>, a: Block, b: Block)
    requires a.fileId == 0 && b.fileId == 0 && a.cksum[0] == b.cksum[0] && Key(a.cksum) < Key(b.cksum)
    requires Generated(merged, [a, b, b])
    ensures !SortedByHash(Taken(merged, 1, 1))
  {
    hide Key, Taken, CountsOf, StemsFrom, Bucket, NewOnly, SortedByCount, SortedByHash;
    var s, m := [a, b, b], merged[a.cksum[0]];
    OneBucket(a, b);
    CountsOfTwo(a, b);
    GeneratedParts(merged, s);
    TakenSorted(merged, 1, 1);
    assert a in s && b in s;
    var p, q := Places(m, s, a.cksum, b.cksum);
    MoreFrequentFirst(m, p, q);
    assert Share(|m|, 1, 1) == |m| && m[..|m|] == m;
  }

  lemma MoreFrequentFirst(m: seq<Block>, p: nat, q: nat)
    requires SortedByCount(m) && p < |m| && q < |m| && m[q].fileId > m[p].fileId
    requires Key(m[p].cksum) < Key(m[q].cksum)
    ensures !SortedByHash(m)
  {
    hide Key;
    assert q < p;
  }

  lemma OneBucket(a: Block, b: Block)
    requires a.fileId == 0 && b.fileId == 0 && a.cksum[0] == b.cksum[0]
    ensures Bucket(NewOnly([a, b, b]), a.cksum[0]) == [a, b, b]
  {
    hide Bucket, NewOnly;
    var i := a.cksum[0];
    EmptyBucket(i);
    OneMore([], a, i, [a]);
    OneMore([a], b, i, [a, b]);
    OneMore([a, b], b, i, [a, b, b]);
  }

  lemma EmptyBucket(i: nat)
    ensures Bucket(NewOnly([]), i) == []
  {
  }

  lemma OneMore(s: seq<Block>, b: Block, i: nat, t: seq<Block>)
    requires Bucket(NewOnly(s), i) == s && b.fileId == 0 && b.cksum[0] == i && t == s + [b]
    ensures Bucket(NewOnly(t), i) == t
  {
    hide Bucket, NewOnly;
    SplitStep(s, b);
  }

  lemma CountsOfTwo(a: Block, b: Block)
    requires a.cksum != b.cksum
    ensures Occurrences([a, b, b], a.cksum) == 1 && Occurrences([a, b, b], b.cksum) == 2
  {
    hide Occurrences;
    assert [a, b, b] == [a] + [b] + [b] && [a] == [] + [a];
    forall ck
      ensures Occurrences([a, b, b], ck) == (if a.cksum == ck then 1 else 0) + (if b.cksum == ck then 2 else 0)
    {
      NoOccurrence(ck);
      OccurrencesAppend([], a, ck);
      OccurrencesAppend([a], b, ck);
      OccurrencesAppend([a] + [b], b, ck);
    }
  }

  lemma NoOccurrence(ck: Checksum)
    ensures Occurrences([], ck) == 0
  {
  }
}
