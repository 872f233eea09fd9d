/** Counts, sums and sizes of records depend on their multiset only. */
module Reordering {
  import opened TraceTypes
  import opened Histogram

  // ---------- counting ----------

  lemma {:induction false} OccurrencesConcat(a: seq<Block>, b: seq<Block>, ck: Checksum)
    ensures Occurrences(a + b, ck) == Occurrences(a, ck) + Occurrences(b, ck)
  {
    if b == [] {
      assert a + b == a;
    } else {
      var c, x := b[..|b| - 1], b[|b| - 1];
      OccurrencesConcat(a, c, ck);
      assert (a + b)[..|a + b| - 1] == a + c;
    }
  }

  /** Takes one occurrence of x out of b. */
  lemma TakeOut(b: seq<Block>, x: Block, ck: Checksum) returns (rest: seq<Block>)
    requires x in multiset(b)
    ensures |rest| < |b| && multiset(rest) == multiset(b) - multiset{x}
    ensures Occurrences(b, ck) == Occurrences(rest, ck) + if x.cksum == ck then 1 else 0
  {
    hide Occurrences;
    var i :| 0 <= i < |b| && b[i] == x;
    var l, r := b[..i], b[i + 1..];
    rest := l + r;
    assert b == l + [x] + r;
    OccurrencesConcat(l, r, ck);
    OccurrencesConcat(l + [x], r, ck);
    OccurrencesAppend(l, x, ck);
  }

  lemma {:induction false} OccurrencesByMultiset(a: seq<Block>, b: seq<Block>, ck: Checksum)
    requires multiset(a) == multiset(b)
    ensures Occurrences(a, ck) == Occurrences(b, ck)
    decreases |a|
  {
    if a == [] {
      assert |multiset(b)| == 0;
    } else {
      hide Occurrences;
      assert a[0] in multiset(a);
      var c := TakeOut(a, a[0], ck);
      var d := TakeOut(b, a[0], ck);
      OccurrencesByMultiset(c, d, ck);
    }
  }

  lemma DistinctByMultiset(a: seq<Block>, b: seq<Block>)
    requires multiset(a) == multiset(b)
    ensures Distinct(a) == Distinct(b)
  {
    assert forall x :: x in a <==> x in multiset(a);
    assert forall x :: x in b <==> x in multiset(b);
  }

  lemma {:induction false} WithCountByMultiset(a: seq<Block>, b: seq<Block>, d: nat)
    requires multiset(a) == multiset(b)
    ensures WithCount(a, d) == WithCount(b, d)
  {
    hide Occurrences, Distinct;
    DistinctByMultiset(a, b);
    forall ck
      ensures Occurrences(a, ck) == Occurrences(b, ck)
    {
      OccurrencesByMultiset(a, b, ck);
    }
  }

  lemma TalliedByMultiset(m: map<nat, int>, a: seq<Block>, b: seq<Block>)
    requires multiset(a) == multiset(b) && Tallied(m, a)
    ensures Tallied(m, b)
  {
    hide WithCount, SumBy;
    SameLength(a, b);
    forall d: nat
      ensures WithCount(a, d) == WithCount(b, d)
    {
      WithCountByMultiset(a, b, d);
    }
  }

  lemma SameLength(a: seq<Block>, b: seq<Block>)
    requires multiset(a) == multiset(b)
    ensures |a| == |b|
  {
    assert |multiset(a)| == |a| && |multiset(b)| == |b|;
  }

  lemma SizesAgreeByMultiset(a: seq<Block>, b: seq<Block>)
    requires multiset(a) == multiset(b) && SizesAgree(a)
    ensures SizesAgree(b)
  {
    forall i, j | 0 <= i < |b| && 0 <= j < |b| && b[i].cksum == b[j].cksum
      ensures b[i].size == b[j].size
    {
      assert b[i] in multiset(b) && b[j] in multiset(b);
      assert b[i] in a && b[j] in a;
    }
  }

  lemma SizedByMultiset(a: seq<Block>, b: seq<Block>)
    requires multiset(a) == multiset(b)
    ensures SizedBlocks(a) == SizedBlocks(b)
  {
    assert forall x :: x in a <==> x in multiset(a);
    assert forall x :: x in b <==> x in multiset(b);
  }

  lemma SizesAllButByMultiset(m: map<nat, int>, total: nat, a: seq<Block>, b: seq<Block>)
    requires multiset(a) == multiset(b) && SizesAllBut(m, total, a, {})
    ensures SizesAllBut(m, total, b, {})
  {
    hide SizedBlocks, SizedWith, Occurrences, Get, Total, SizesAgree;
    SizedByMultiset(a, b);
    if SizesAgree(b) {
      SizesAgreeByMultiset(b, a);
      forall d: nat
        ensures SizedWith(a, d) == SizedWith(b, d)
      {
        forall x
          ensures x in SizedWith(a, d) <==> x in SizedWith(b, d)
        {
          SizedInto(a, d, x);
          SizedInto(b, d, x);
          OccurrencesByMultiset(a, b, x.0);
        }
      }
    }
  }

  lemma TakenFromPermuted(a: seq<Block>, b: seq<Block>, p: Block)
    requires multiset(a) == multiset(b) && TakenFrom(a, p)
    ensures TakenFrom(b, p)
  {
    var i :| 0 <= i < |a| && p == a[i].(offset := p.offset);
    assert a[i] in multiset(a) && a[i] in b;
  }

  lemma WrittenByMultiset(os: seq<Block>, a: seq<Block>, b: seq<Block>, threshold: nat)
    requires multiset(a) == multiset(b) && Written(os, a, {}, threshold)
    ensures Written(os, b, {}, threshold)
  {
    hide Key, Occurrences, Distinct, Lists, TakenFrom;
    DistinctByMultiset(a, b);
    forall p | TakenFrom(a, p)
      ensures TakenFrom(b, p)
    {
      TakenFromPermuted(a, b, p);
    }
    forall ck
      ensures Occurrences(a, ck) == Occurrences(b, ck)
    {
      OccurrencesByMultiset(a, b, ck);
    }
  }

  // ---------- sums ----------

  lemma {:induction false} SumSizesConcat(a: seq<Block>, b: seq<Block>)
    ensures SumSizes(a + b) == SumSizes(a) + SumSizes(b)
  {
    if b == [] {
      assert a + b == a;
    } else {
      SumSizesConcat(a, b[..|b| - 1]);
      assert (a + b)[..|a + b| - 1] == a + b[..|b| - 1];
    }
  }

  lemma SumTakeOut(b: seq<Block>, x: Block) returns (rest: seq<Block>)
    requires x in multiset(b)
    ensures |rest| < |b| && multiset(rest) == multiset(b) - multiset{x}
    ensures SumSizes(b) == SumSizes(rest) + x.size
  {
    hide SumSizes;
    var i :| 0 <= i < |b| && b[i] == x;
    var l, r := b[..i], b[i + 1..];
    rest := l + r;
    assert b == l + [x] + r;
    SumSizesConcat(l, r);
    SumSizesConcat(l + [x], r);
    SumSizesAppend(l, x);
  }

  lemma {:induction false} SumSizesByMultiset(a: seq<Block>, b: seq<Block>)
    requires multiset(a) == multiset(b)
    ensures SumSizes(a) == SumSizes(b)
    decreases |a|
  {
    if a == [] {
      assert |multiset(b)| == 0;
    } else {
      hide SumSizes;
      assert a[0] in multiset(a);
      var c := SumTakeOut(a, a[0]);
      var d := SumTakeOut(b, a[0]);
      SumSizesByMultiset(c, d);
    }
  }
}
