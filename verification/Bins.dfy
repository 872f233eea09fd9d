/** Grouping segments into bins by min-hash, eb_dedup.cpp, and deduplicating inside a bin, dedup_types.hpp. */
module Bins {
  import opened Bytes
  import opened TraceTypes
  import opened StdSort
  import opened Segments
  import opened Histogram
  import opened Reordering
  import opened CdsGen

  // ---------- one bin ----------

  class Bin {
    var blocklist: seq<Block>
    var numSegments: nat
    var numBlocks: u32
    var numBlocks1: u32
    var numDedupBlocks: u32
    var size: u32
    var size1: u32
    var dedupSize: u32

    constructor ()
      ensures blocklist == [] && Added()
    {
      blocklist, numSegments := [], 0;
      numBlocks, numBlocks1, numDedupBlocks, size, size1, dedupSize := 0, 0, 0, 0, 0, 0;
    }

    /** The counters kept while adding, modulo 2^32. */
    ghost predicate Added()
      reads this
    {
      numBlocks1 == Low32(|blocklist|) && size1 == Low32(SumSizes(blocklist))
    }

    /** The counters computed by deduplication, in terms of the blocks alone. */
    ghost predicate Recounted()
      reads this
    {
      && numBlocks == Low32(|blocklist|) && size == Low32(SumSizes(blocklist))
      && numDedupBlocks == Low32(|Distinct(blocklist)|)
      && (SizesAgree(blocklist) ==> dedupSize == Low32(Total(SizedBlocks(blocklist))))
    }

    /** The state that deduplication leaves, for the blocks that were added. */
    ghost predicate Deduplicated(added: seq<Block>)
      reads this
    {
      && Added() && Recounted() && numBlocks == numBlocks1 && size == size1
      && multiset(blocklist) == multiset(added) && SortedByHash(blocklist)
      && Distinct(blocklist) == Distinct(added) && SizedBlocks(blocklist) == SizedBlocks(added)
    }

    method AddSegment(seg: seq<Block>)
      requires Added()
      modifies this
      ensures Added() && blocklist == old(blocklist) + seg && numSegments == old(numSegments) + 1
    {
      hide SumSizes, Low32;
      ghost var before := blocklist;
      blocklist := blocklist + seg;
      assert seg[..0] == [] && before + [] == before;
      for i := 0 to |seg|
        invariant blocklist == before + seg && numSegments == old(numSegments)
        invariant numBlocks1 == Low32(|before| + i)
        invariant size1 == Low32(SumSizes(before + seg[..i]))
      {
        assert before + seg[..i + 1] == (before + seg[..i]) + [seg[i]];
        SumSizesAppend(before + seg[..i], seg[i]);
        AddLow(SumSizes(before + seg[..i]), seg[i].size);
        AddLow(|before| + i, 1);
        size1 := Low32(size1 + seg[i].size);
        numBlocks1 := Low32(numBlocks1 + 1);
      }
      assert seg[..|seg|] == seg;
      numSegments := numSegments + 1;
    }

    /**
     * Sorts the blocks and recounts them run by run. The recount matches what was added, and repeating it
     * changes no count.
     */
    method Deduplication()
      requires Added()
      modifies this
      ensures Deduplicated(old(blocklist)) && numSegments == old(numSegments)
      ensures old(Recounted()) ==> numBlocks == old(numBlocks) && size == old(size)
      ensures old(Recounted()) ==> numDedupBlocks == old(numDedupBlocks)
      ensures old(Recounted()) && SizesAgree(old(blocklist)) ==> dedupSize == old(dedupSize)
    {
      hide SumSizes, Distinct, SizedBlocks, SizesAgree, Total, Key, Low32;
      var sorted := Sort(blocklist, (b: Block) => Key(b.cksum));
      assert SortedByHash(sorted);
      SameTotals(blocklist, sorted);
      blocklist := sorted;
      Recount();
    }

    /** One pass over the sorted blocks: each run adds one distinct block. */
    method Recount()
      requires SortedByHash(blocklist)
      modifies `numBlocks, `size, `numDedupBlocks, `dedupSize
      ensures Recounted()
    {
      hide SumSizes, Distinct, SizedBlocks, SizesAgree, Total, Key, Tally, Low32;
      ghost var sorted := blocklist;
      numBlocks, size, numDedupBlocks, dedupSize := 0, 0, 0, 0;
      TallyStarts(sorted);
      var i := 0;
      while i < |blocklist|
        invariant i <= |sorted|
        invariant 0 < i < |sorted| ==> sorted[i - 1].cksum != sorted[i].cksum
        invariant Tally(sorted, i, numBlocks, size, numDedupBlocks, dedupSize)
      {
        FirstOfRun(sorted, i);
        TallyNew(sorted, i, numBlocks, size, numDedupBlocks, dedupSize);
        numBlocks := Low32(numBlocks + 1);
        size := Low32(size + blocklist[i].size);
        dedupSize := Low32(dedupSize + blocklist[i].size);
        numDedupBlocks := Low32(numDedupBlocks + 1);
        while i < |blocklist| - 1 && blocklist[i + 1].cksum == blocklist[i].cksum
          invariant i < |sorted|
          invariant Tally(sorted, i + 1, numBlocks, size, numDedupBlocks, dedupSize)
        {
          i := i + 1;
          TallyAgain(sorted, i, numBlocks, size, numDedupBlocks, dedupSize);
          numBlocks := Low32(numBlocks + 1);
          size := Low32(size + blocklist[i].size);
        }
        i := i + 1;
      }
      TallyEnds(sorted, numBlocks, size, numDedupBlocks, dedupSize);
    }
  }

  /** Nothing that a bin counts depends on the order of its blocks. */
  lemma SameTotals(a: seq<Block>, b: seq<Block>)
    requires multiset(a) == multiset(b)
    ensures |a| == |b| && SumSizes(a) == SumSizes(b)
    ensures Distinct(a) == Distinct(b) && SizedBlocks(a) == SizedBlocks(b)
    ensures SizesAgree(a) <==> SizesAgree(b)
  {
    hide SumSizes, Distinct, SizedBlocks, SizesAgree;
    SameLength(a, b);
    SumSizesByMultiset(a, b);
    DistinctByMultiset(a, b);
    SizedByMultiset(a, b);
    if SizesAgree(a) {
      SizesAgreeByMultiset(a, b);
    } else if SizesAgree(b) {
      SizesAgreeByMultiset(b, a);
    }
  }

  /** The recounted totals after the first i blocks of s. */
  ghost predicate Tally(s: seq<Block>, i: nat, blocks: nat, size: nat, dedup: nat, dedupSize: nat) {
    && i <= |s|
    && blocks == Low32(i) && size == Low32(SumSizes(s[..i]))
    && dedup == Low32(|Distinct(s[..i])|)
    && (SizesAgree(s) ==> dedupSize == Low32(Total(SizedBlocks(s[..i]))))
  }

  lemma TallyStarts(s: seq<Block>)
    ensures Tally(s, 0, 0, 0, 0, 0)
  {
    EmptyBin();
  }

  lemma TallyEnds(s: seq<Block>, blocks: nat, size: nat, dedup: nat, dedupSize: nat)
    requires Tally(s, |s|, blocks, size, dedup, dedupSize)
    ensures blocks == Low32(|s|) && size == Low32(SumSizes(s)) && dedup == Low32(|Distinct(s)|)
    ensures SizesAgree(s) ==> dedupSize == Low32(Total(SizedBlocks(s)))
  {
    assert s[..|s|] == s;
  }

  lemma TallyNew(s: seq<Block>, i: nat, blocks: nat, size: nat, dedup: nat, dedupSize: nat)
    requires i < |s| && Tally(s, i, blocks, size, dedup, dedupSize) && s[i].cksum !in Distinct(s[..i])
    ensures Tally(s, i + 1, Low32(blocks + 1), Low32(size + s[i].size), Low32(dedup + 1),
                  Low32(dedupSize + s[i].size))
  {
    hide SumSizes, Distinct, SizedBlocks, Total, SizesAgree, Low32;
    assert s[..i + 1] == s[..i] + [s[i]];
    SumSizesAppend(s[..i], s[i]);
    AddLow(SumSizes(s[..i]), s[i].size);
    DistinctAppend(s[..i], s[i]);
    AddLow(i, 1);
    AddLow(|Distinct(s[..i])|, 1);
    var x, seen := Sized(s[i]), SizedBlocks(s[..i]);
    SizedAppend(s[..i], s[i]);
    assert x !in seen by { NotSized(s[..i], s[i]); }
    assert seen + {x} - {x} == seen;
    TotalSplits(seen + {x}, x);
    AddLow(Total(seen), s[i].size);
  }

  lemma NotSized(s: seq<Block>, b: Block)
    requires b.cksum !in Distinct(s)
    ensures Sized(b) !in SizedBlocks(s)
  {
  }

  lemma TallyAgain(s: seq<Block>, i: nat, blocks: nat, size: nat, dedup: nat, dedupSize: nat)
    requires 0 < i < |s| && Tally(s, i, blocks, size, dedup, dedupSize) && s[i].cksum == s[i - 1].cksum
    ensures Tally(s, i + 1, Low32(blocks + 1), Low32(size + s[i].size), dedup, dedupSize)
  {
    hide SumSizes, Distinct, SizedBlocks, Total, SizesAgree, Low32;
    assert s[..i + 1] == s[..i] + [s[i]];
    SumSizesAppend(s[..i], s[i]);
    AddLow(SumSizes(s[..i]), s[i].size);
    DistinctAppend(s[..i], s[i]);
    AddLow(i, 1);
    SeenBefore(s[..i], s[i].cksum);
    assert Distinct(s[..i]) + {s[i].cksum} == Distinct(s[..i]);
    if SizesAgree(s) {
      SameSize(s, i - 1, i);
      assert s[..i][i - 1] == s[i - 1];
      SizedAppend(s[..i], s[i]);
      InSized(s[..i], s[i - 1]);
      assert SizedBlocks(s[..i]) + {Sized(s[i])} == SizedBlocks(s[..i]);
    }
  }

  lemma SameSize(s: seq<Block>, i: nat, j: nat)
    requires SizesAgree(s) && i < |s| && j < |s| && s[i].cksum == s[j].cksum
    ensures s[i].size == s[j].size
  {
  }

  lemma SeenBefore(s: seq<Block>, ck: Checksum)
    requires s != [] && s[|s| - 1].cksum == ck
    ensures ck in Distinct(s)
  {
    assert s[|s| - 1] in s;
  }

  lemma EmptyBin()
    ensures SumSizes([]) == 0 && Distinct([]) == {} && SizedBlocks([]) == {}
  {
  }

  // ---------- all bins ----------

  /** The least checksum of a segment. */
  function MinHash(bs: seq<Block>): Checksum
    requires bs != []
  {
    if |bs| == 1 then bs[0].cksum else
      var m, last := MinHash(bs[..|bs| - 1]), bs[|bs| - 1].cksum;
      if CksumLess(last, m) then last else m
  }

  /** The checksum at the min-hash position that a segment keeps. */
  lemma {:induction false} MinHashAtIndex(bs: seq<Block>, idx: nat)
    requires bs != [] && LeftmostMin(bs, idx)
    ensures MinHash(bs) == bs[idx].cksum
  {
    hide Key;
    if |bs| > 1 {
      var t, last := bs[..|bs| - 1], bs[|bs| - 1].cksum;
      if idx == |bs| - 1 {
        var j := LeastExists(t);
        MinHashAtIndex(t, j);
        ChecksumOrder(last, t[j].cksum);
      } else {
        MinHashAtIndex(t, idx);
        ChecksumOrder(last, t[idx].cksum);
      }
    }
  }

  lemma {:induction false} LeastExists(bs: seq<Block>) returns (idx: nat)
    requires bs != []
    ensures LeftmostMin(bs, idx)
  {
    hide Key;
    if |bs| == 1 {
      idx := 0;
    } else {
      var t, b := bs[..|bs| - 1], bs[|bs| - 1];
      assert t + [b] == bs;
      var j := LeastExists(t);
      MinAppend(t, b, j);
      idx := if Key(b.cksum) < Key(bs[j].cksum) then |t| else j;
    }
  }

  /** The blocks of all segments with the given min-hash. */
  function Group(segs: seq<seq<Block>>, key: Checksum): seq<Block>
    requires forall i :: 0 <= i < |segs| ==> segs[i] != []
  {
    if segs == [] then [] else
      var last := segs[|segs| - 1];
      Group(segs[..|segs| - 1], key) + if MinHash(last) == key then last else []
  }

  function Keys(segs: seq<seq<Block>>): set<Checksum>
    requires forall i :: 0 <= i < |segs| ==> segs[i] != []
  {
    if segs == [] then {} else Keys(segs[..|segs| - 1]) + {MinHash(segs[|segs| - 1])}
  }

  /** All blocks, and all bytes unless the 32-bit size of a segment has wrapped. */
  ghost predicate TotalsOf(segs: seq<seq<Block>>, blocks: nat, bytes: nat) {
    Counts(blocks, |Flatten(segs)|, bytes, SumSizes(Flatten(segs)), AllFit(segs))
  }

  predicate Counts(blocks: nat, length: nat, bytes: nat, total: nat, fit: bool) {
    blocks == length && bytes <= total && (bytes == total <==> fit)
  }

  ghost predicate AllFit(segs: seq<seq<Block>>) {
    forall i :: 0 <= i < |segs| ==> SumSizes(segs[i]) < TWO_32
  }

  lemma AllFitAppend(segs: seq<seq<Block>>, seg: seq<Block>)
    ensures AllFit(segs + [seg]) <==> AllFit(segs) && SumSizes(seg) < TWO_32
  {
    hide SumSizes;
    var more := segs + [seg];
    assert more[|segs|] == seg && forall i :: 0 <= i < |segs| ==> more[i] == segs[i];
  }

  lemma NoTotals()
    ensures TotalsOf([], 0, 0) && Keys([]) == {}
  {
    EmptyBin();
  }

  lemma TotalsAppend(segs: seq<seq<Block>>, seg: seq<Block>, blocks: nat, bytes: nat)
    requires TotalsOf(segs, blocks, bytes)
    ensures TotalsOf(segs + [seg], blocks + |seg|, bytes + Low32(SumSizes(seg)))
  {
    hide SumSizes, AllFit, Low32, Flatten, Counts;
    var all := Flatten(segs);
    AllFitAppend(segs, seg);
    FlattenAppend(segs, seg);
    SumSizesConcat(all, seg);
    assert |all + seg| == |all| + |seg|;
    CountsAdd(blocks, |all|, bytes, SumSizes(all), AllFit(segs), |seg|, SumSizes(seg));
  }

  lemma CountsAdd(blocks: nat, length: nat, bytes: nat, total: nat, fit: bool, k: nat, n: nat)
    requires Counts(blocks, length, bytes, total, fit)
    ensures Counts(blocks + k, length + k, bytes + Low32(n), total + n, fit && n < TWO_32)
  {
    hide Low32;
    LowBits(n);
  }

  /** Step 1 of eb_dedup: every segment goes into the bin of its min-hash. */
  method GroupSegments(segs: seq<seq<Block>>) returns (binmap: map<Checksum, Bin>, blocks: nat, bytes: nat)
    requires forall i :: 0 <= i < |segs| ==> segs[i] != []
    ensures binmap.Keys == Keys(segs)
    ensures forall k :: k in binmap ==> fresh(binmap[k]) && binmap[k].Added() && binmap[k].blocklist == Group(segs, k)
    ensures forall j, k :: j in binmap && k in binmap && j != k ==> binmap[j] != binmap[k]
    ensures TotalsOf(segs, blocks, bytes)
  {
    hide MinHash, SumSizes, Bin.Added, TotalsOf, Low32, Group, Keys, Flatten;
    binmap, blocks, bytes := map[], 0, 0;
    assert TotalsOf([], 0, 0) && Keys([]) == {} by { NoTotals(); }
    for i := 0 to |segs|
      invariant binmap.Keys == Keys(segs[..i])
      invariant forall k :: k in binmap ==>
                  fresh(binmap[k]) && binmap[k].Added() && binmap[k].blocklist == Group(segs[..i], k)
      invariant forall j, k :: j in binmap && k in binmap && j != k ==> binmap[j] != binmap[k]
      invariant TotalsOf(segs[..i], blocks, bytes)
    {
      var seg := segs[i];
      var key := MinHash(seg);
      assert segs[..i + 1] == segs[..i] + [seg];
      TotalsAppend(segs[..i], seg, blocks, bytes);
      GroupAppend(segs[..i], seg);
      if key !in binmap {
        NoGroup(segs[..i], key);
        var bin := new Bin();
        binmap := binmap[key := bin];
      }
      binmap[key].AddSegment(seg);
      blocks := blocks + |seg|;
      bytes := bytes + Low32(SumSizes(seg));  // the size of a segment has 32 bits
    }
    assert segs[..|segs|] == segs;
  }

  /** Step 2 of eb_dedup: each bin is deduplicated on its own. */
  method DeduplicateBins(segs: seq<seq<Block>>) returns (binmap: map<Checksum, Bin>)
    requires forall i :: 0 <= i < |segs| ==> segs[i] != []
    ensures binmap.Keys == Keys(segs)
    ensures forall k :: k in binmap ==> binmap[k].Deduplicated(Group(segs, k))
  {
    hide MinHash, SumSizes, Group, Keys, Bin.Added, Bin.Deduplicated;
    var blocks, bytes;
    binmap, blocks, bytes := GroupSegments(segs);
    var todo := binmap.Keys;
    while todo != {}
      invariant todo <= binmap.Keys
      invariant forall k :: k in binmap ==> fresh(binmap[k])
      invariant forall k :: k in todo ==> binmap[k].Added() && binmap[k].blocklist == Group(segs, k)
      invariant forall k :: k in binmap.Keys - todo ==> binmap[k].Deduplicated(Group(segs, k))
      decreases |todo|
    {
      var key :| key in todo;
      binmap[key].Deduplication();
      todo := todo - {key};
    }
  }

  lemma GroupAppend(segs: seq<seq<Block>>, seg: seq<Block>)
    requires seg != [] && forall i :: 0 <= i < |segs| ==> segs[i] != []
    ensures Keys(segs + [seg]) == Keys(segs) + {MinHash(seg)}
    ensures forall k :: Group(segs + [seg], k) == Group(segs, k) + if MinHash(seg) == k then seg else []
  {
    hide MinHash;
    assert (segs + [seg])[..|segs|] == segs;
  }

  lemma {:induction false} NoGroup(segs: seq<seq<Block>>, key: Checksum)
    requires forall i :: 0 <= i < |segs| ==> segs[i] != []
    requires key !in Keys(segs)
    ensures Group(segs, key) == []
  {
    hide MinHash;
    if segs != [] {
      NoGroup(segs[..|segs| - 1], key);
    }
  }

  // ---------- bins against the whole ----------

  /** How often a block is in all bins together. */
  ghost function InBins(segs: seq<seq<Block>>, keys: set<Checksum>, b: Block): nat
    requires forall i :: 0 <= i < |segs| ==> segs[i] != []
  {
    if keys == {} then 0 else
      var k :| k in keys;
      multiset(Group(segs, k))[b] + InBins(segs, keys - {k}, b)
  }

  lemma {:induction false} InBinsSplits(segs: seq<seq<Block>>, keys: set<Checksum>, b: Block, k: Checksum)
    requires (forall i :: 0 <= i < |segs| ==> segs[i] != []) && k in keys
    ensures InBins(segs, keys, b) == multiset(Group(segs, k))[b] + InBins(segs, keys - {k}, b)
    decreases |keys|
  {
    hide Group;
    var j :| j in keys && InBins(segs, keys, b) == multiset(Group(segs, j))[b] + InBins(segs, keys - {j}, b);
    if j != k {
      InBinsSplits(segs, keys - {j}, b, k);
      InBinsSplits(segs, keys - {k}, b, j);
      assert keys - {j} - {k} == keys - {k} - {j};
    }
  }

  /** One more segment goes into exactly one bin, if that is among the keys. */
  lemma {:induction false} InBinsAppend(segs: seq<seq<Block>>, seg: seq<Block>, keys: set<Checksum>, b: Block)
    requires seg != [] && forall i :: 0 <= i < |segs| ==> segs[i] != []
    ensures InBins(segs + [seg], keys, b) ==
            InBins(segs, keys, b) + if MinHash(seg) in keys then multiset(seg)[b] else 0
    decreases |keys|
  {
    if keys != {} {
      var k :| k in keys;
      InBinsSplits(segs, keys, b, k);
      InBinsSplits(segs + [seg], keys, b, k);
      InBinsAppend(segs, seg, keys - {k}, b);
      hide MinHash, Group;
      GroupAppend(segs, seg);
      assert multiset(Group(segs, k) + seg)[b] == multiset(Group(segs, k))[b] + multiset(seg)[b];
    }
  }

  lemma {:induction false} UnusedBin(segs: seq<seq<Block>>, keys: set<Checksum>, k: Checksum, b: Block)
    requires (forall i :: 0 <= i < |segs| ==> segs[i] != []) && k !in Keys(segs) && k !in keys
    ensures InBins(segs, keys + {k}, b) == InBins(segs, keys, b)
  {
    hide MinHash, Group, Keys;
    InBinsSplits(segs, keys + {k}, b, k);
    NoGroup(segs, k);
    assert keys + {k} - {k} == keys;
  }

  /** Nothing is lost or doubled by binning: every block is in the bins as often as in the segments. */
  lemma {:induction false} BinsPartition(segs: seq<seq<Block>>, b: Block)
    requires forall i :: 0 <= i < |segs| ==> segs[i] != []
    ensures InBins(segs, Keys(segs), b) == multiset(Flatten(segs))[b]
  {
    hide MinHash, Group, InBins;
    if segs == [] {
      assert InBins([], {}, b) == 0 by { NoBins(b); }
    } else {
      var front, seg := segs[..|segs| - 1], segs[|segs| - 1];
      assert segs == front + [seg];
      BinsPartition(front, b);
      GroupAppend(front, seg);
      InBinsAppend(front, seg, Keys(segs), b);
      if MinHash(seg) in Keys(front) {
        assert Keys(segs) == Keys(front);
      } else {
        UnusedBin(front, Keys(front), MinHash(seg), b);
      }
      FlattenAppend(front, seg);
      assert multiset(Flatten(front) + seg)[b] == multiset(Flatten(front))[b] + multiset(seg)[b];
    }
  }

  lemma NoBins(b: Block)
    ensures InBins([], {}, b) == 0
  {
  }

  /** The sum of the bins' distinct-checksum counts. */
  ghost function DistinctInBins(segs: seq<seq<Block>>, keys: set<Checksum>): nat
    requires forall i :: 0 <= i < |segs| ==> segs[i] != []
  {
    if keys == {} then 0 else
      var k :| k in keys;
      |Distinct(Group(segs, k))| + DistinctInBins(segs, keys - {k})
  }

  ghost function UnionOfBins(segs: seq<seq<Block>>, keys: set<Checksum>): set<Checksum>
    requires forall i :: 0 <= i < |segs| ==> segs[i] != []
  {
    set k, ck | k in keys && ck in Distinct(Group(segs, k)) :: ck
  }

  lemma {:induction false} UnionIsSmaller(segs: seq<seq<Block>>, keys: set<Checksum>)
    requires forall i :: 0 <= i < |segs| ==> segs[i] != []
    ensures |UnionOfBins(segs, keys)| <= DistinctInBins(segs, keys)
    decreases |keys|
  {
    hide Distinct, Group;
    if keys != {} {
      var k :| k in keys && DistinctInBins(segs, keys) == |Distinct(Group(segs, k))| + DistinctInBins(segs, keys - {k});
      UnionIsSmaller(segs, keys - {k});
      var one, rest := Distinct(Group(segs, k)), UnionOfBins(segs, keys - {k});
      assert UnionOfBins(segs, keys) == one + rest;
      assert |one + rest| <= |one| + |rest|;
    }
  }

  /** Every block of every segment is in the bin of that segment's min-hash. */
  lemma {:induction false} BlocksAreBinned(segs: seq<seq<Block>>, b: Block)
    requires (forall i :: 0 <= i < |segs| ==> segs[i] != []) && b in Flatten(segs)
    ensures exists k :: k in Keys(segs) && b in Group(segs, k)
  {
    hide MinHash;
    var n := |segs| - 1;
    if b in segs[n] {
      assert b in Group(segs, MinHash(segs[n]));
    } else {
      BlocksAreBinned(segs[..n], b);
      var k :| k in Keys(segs[..n]) && b in Group(segs[..n], k);
      assert b in Group(segs, k);
    }
  }

  /** Binning can only miss duplicates: the bins together keep at least the distinct checksums of the whole. */
  lemma BinsKeepEnough(segs: seq<seq<Block>>)
    requires forall i :: 0 <= i < |segs| ==> segs[i] != []
    ensures DistinctInBins(segs, Keys(segs)) >= |Distinct(Flatten(segs))|
  {
    hide Group, Keys, Flatten;
    var all, union := Distinct(Flatten(segs)), UnionOfBins(segs, Keys(segs));
    forall ck | ck in all
      ensures ck in union
    {
      var b :| b in Flatten(segs) && b.cksum == ck;
      BlocksAreBinned(segs, b);
      var k :| k in Keys(segs) && b in Group(segs, k);
      assert ck in Distinct(Group(segs, k));
    }
    UnionIsSmaller(segs, Keys(segs));
    assert all <= union;
    SubsetIsSmaller(all, union);
  }

  lemma SubsetIsSmaller(a: set<Checksum>, b: set<Checksum>)
    requires a <= b
    ensures |a| <= |b|
  {
    assert b == a + (b - a);
  }
}
