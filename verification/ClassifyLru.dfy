/**
 * The classification with the parent cache, dedup_sim_lru.cpp: level 2 searches a cache of recent parent
 * segments instead of the one parent segment.
 */
module ClassifyLru {
  import opened Bytes
  import opened Chunking
  import opened TraceTypes
  import opened StdSort
  import opened Segments
  import opened Classify
  import Lru = LruCache

  // ---------- comparing flags ----------

  predicate BitsOf(a: bv8, b: bv8) {
    a & b == a
  }

  /** Every flag that the uncached program sets beside this parent is set in flags. */
  ghost predicate KeepsFlags(lib: Library, cur: seq<Block>, parent: Option<Parent>, cds: seq<Block>, flags: seq<bv8>) {
    && |flags| == |cur|
    && forall i :: 0 <= i < |cur| ==> BitsOf(Flags(lib, cur, parent, cds, i), flags[i])
  }

  /** A parent is kept here only as long as its trace lasts. */
  function KeptParent(parents: Option<Trace>, j: nat): Option<Parent> {
    if parents.Some? && j < |parents.value.segs| then Some(Loaded(parents.value.segs[j])) else None
  }

  /** The parent segments that have gone into the cache before segment j: those that level 1 did not settle. */
  ghost function Added(lib: Library, segs: seq<seq<Block>>, parents: Option<Trace>, j: nat): seq<Block>
    requires j <= |segs|
  {
    if j == 0 then [] else
      Added(lib, segs, parents, j - 1)
      + if AtLevelTwo(lib, segs[j - 1], parents, j - 1) then parents.value.segs[j - 1] else []
  }

  /** There is a parent segment, and the segment differs from it. */
  predicate AtLevelTwo(lib: Library, cur: seq<Block>, parents: Option<Trace>, j: nat) {
    && parents.Some? && j < |parents.value.segs|
    && SegCksum(lib, cur) != SegCksum(lib, parents.value.segs[j])
  }

  /** A block that the cache held at the start or that is in a parent segment added to it. */
  ghost predicate Recent(start: seq<Lru.Entry>, added: seq<Block>, ck: Checksum) {
    Lru.Holds(start, ck) || InBlocks(added, ck)
  }

  /**
   * Beside the flags of the kept parent nothing is set, except that level 2, where it applies, may find a
   * recent block.
   */
  ghost predicate AddsRecentOnly(lib: Library, cur: seq<Block>, parents: Option<Trace>, j: nat, cds: seq<Block>,
                                 start: seq<Lru.Entry>, added: seq<Block>, flags: seq<bv8>)
  {
    && |flags| == |cur|
    && forall i :: 0 <= i < |cur| ==>
         || flags[i] == Flags(lib, cur, KeptParent(parents, j), cds, i)
         || (flags[i] == Flags(lib, cur, KeptParent(parents, j), cds, i) | IN_DIRTY_SEG
             && AtLevelTwo(lib, cur, parents, j) && Recent(start, added, cur[i].cksum))
  }

  /** As long as all that was added fits the capacity, level 2 finds every recent block. */
  ghost predicate FindsRecent(lib: Library, cur: seq<Block>, parents: Option<Trace>, j: nat,
                              start: seq<Lru.Entry>, added: seq<Block>, capacity: nat, flags: seq<bv8>)
  {
    && |flags| == |cur|
    && (AtLevelTwo(lib, cur, parents, j) && |start| + |added| <= capacity ==>
          forall i :: 0 <= i < |cur| && Recent(start, added, cur[i].cksum) ==> BitsOf(IN_DIRTY_SEG, flags[i]))
  }

  /**
   * Behind the end of the parent trace the uncached program goes on comparing: once with what the failed load
   * has left, then with an empty segment. A segment that equals that, or has a block found in it, loses flags.
   */
  predicate LosesFlags(lib: Library, cur: seq<Block>, parents: Option<Trace>, j: nat) {
    && parents.Some? && j >= |parents.value.segs| && cur != []
    && var left := if j == |parents.value.segs| then parents.value.tail else [];
       || SegCksum(lib, cur) == SegCksum(lib, left)
       || exists i :: 0 <= i < |cur| && Finds(lib, left, cur[i].cksum)
  }

  // ---------- what the cache holds ----------

  /** The cache is in hash order and within its capacity. */
  ghost predicate Ready(cache: Lru.LruCache)
    reads cache
  {
    Ordered(cache.cache, Lru.ByHash) && |cache.cache| <= cache.capacity
  }

  /**
   * c holds no more than what start holds and added lists; and as long as that fits the capacity it holds all
   * of it.
   */
  ghost predicate Holding(c: seq<Lru.Entry>, start: seq<Lru.Entry>, capacity: nat, added: seq<Block>) {
    && (forall ck :: Lru.Holds(c, ck) ==> Recent(start, added, ck))
    && (|start| + |added| <= capacity ==>
          |c| == |start| + |added| && forall ck :: Recent(start, added, ck) ==> Lru.Holds(c, ck))
  }

  lemma RenewedHolds(c: seq<Lru.Entry>, r: seq<Lru.Entry>, at: Checksum, i: nat, now: nat)
    requires Lru.Renewed(c, r, at, i, now)
    ensures SameBlocksHeld(c, r)
  {
    assert forall j :: 0 <= j < |c| ==> r[j].blk == c[j].blk;
    forall ck
      ensures Lru.Holds(r, ck) <==> Lru.Holds(c, ck)
    {
      if Lru.Holds(c, ck) {
        var j :| 0 <= j < |c| && c[j].blk.cksum == ck;
        assert r[j].blk.cksum == ck;
      }
    }
  }

  /** One more parent segment goes into the cache. */
  lemma HoldingMore(c: seq<Lru.Entry>, r: seq<Lru.Entry>, start: seq<Lru.Entry>, capacity: nat, added: seq<Block>,
                    blks: seq<Block>, now: nat)
    requires Holding(c, start, capacity, added) && Lru.Refreshed(c, r, blks, now, capacity)
    ensures Holding(r, start, capacity, added + blks)
  {
    InJoined(added, blks);
    if |c| + |blks| <= capacity {
      Lru.RefreshedAll(c, r, blks, now, capacity);
    }
    hide Lru.Holds, InBlocks, Lru.Refreshed;
    forall ck
      ensures Lru.Holds(r, ck) ==> Lru.Holds(c, ck) || InBlocks(blks, ck)
      ensures InBlocks(blks, ck) ==> Lru.Holds(r, ck)
    {
      RefreshedHas(c, r, blks, now, capacity, ck);
    }
  }

  lemma RefreshedHas(c: seq<Lru.Entry>, r: seq<Lru.Entry>, blks: seq<Block>, now: nat, capacity: nat, ck: Checksum)
    requires Lru.Refreshed(c, r, blks, now, capacity)
    ensures Lru.Holds(r, ck) ==> Lru.Holds(c, ck) || InBlocks(blks, ck)
    ensures InBlocks(blks, ck) ==> Lru.Holds(r, ck)
  {
    hide Lru.Refreshed;
    if Lru.Holds(r, ck) {
      var i :| 0 <= i < |r| && r[i].blk.cksum == ck;
      Lru.RefreshedFrom(c, r, blks, now, capacity, i);
    }
    if InBlocks(blks, ck) {
      var i :| 0 <= i < |blks| && blks[i].cksum == ck;
      Lru.RefreshedHolds(c, r, blks, now, capacity, i);
    }
  }

  lemma InJoined(a: seq<Block>, b: seq<Block>)
    ensures forall ck :: InBlocks(a + b, ck) <==> InBlocks(a, ck) || InBlocks(b, ck)
  {
    var ab := a + b;
    forall ck
      ensures InBlocks(ab, ck) <==> InBlocks(a, ck) || InBlocks(b, ck)
    {
      if InBlocks(a, ck) {
        var i :| 0 <= i < |a| && a[i].cksum == ck;
        assert ab[i].cksum == ck;
      }
      if InBlocks(b, ck) {
        var i :| 0 <= i < |b| && b[i].cksum == ck;
        assert ab[|a| + i].cksum == ck;
      }
    }
  }

  lemma SameHolding(c: seq<Lru.Entry>, r: seq<Lru.Entry>, start: seq<Lru.Entry>, capacity: nat, added: seq<Block>)
    requires Holding(c, start, capacity, added) && SameBlocksHeld(c, r)
    ensures Holding(r, start, capacity, added)
  {
    hide Lru.Holds, InBlocks;
  }

  ghost predicate SameBlocksHeld(c: seq<Lru.Entry>, r: seq<Lru.Entry>) {
    |c| == |r| && forall ck :: Lru.Holds(r, ck) <==> Lru.Holds(c, ck)
  }

  // ---------- levels 1 and 2 ----------

  /**
   * Levels 1 and 2 of one segment: equal segments are flagged as such, and leave the cache alone; otherwise the
   * parent segment has gone into the cache, making it held, and exactly the blocks held are flagged.
   */
  ghost predicate ParentLevels(lib: Library, cur: seq<Block>, parent: seq<Block>, c: seq<Lru.Entry>,
                               held: seq<Lru.Entry>, now: nat, capacity: nat, flags: seq<bv8>)
  {
    && |flags| == |cur|
    && if SegCksum(lib, cur) == SegCksum(lib, parent)
       then held == c && forall i :: 0 <= i < |cur| ==> flags[i] == IN_PARENT
       else Lru.Refreshed(c, held, parent, now, capacity)
            && forall i :: 0 <= i < |cur| ==> flags[i] == if Lru.Holds(held, cur[i].cksum) then IN_DIRTY_SEG else 0
  }

  method SearchCache(blk: Block, cache: Lru.LruCache, now: nat) returns (found: bool)
    requires Ready(cache)
    modifies cache
    ensures Ready(cache) && found == Lru.Holds(old(cache.cache), blk.cksum)
    ensures SameBlocksHeld(old(cache.cache), cache.cache)
  {
    hide Ordered;
    ghost var before := cache.cache;
    found := cache.SearchItem(blk, now);
    if found {
      ghost var i: nat :| Lru.Renewed(before, cache.cache, blk.cksum, i, now);
      RenewedHolds(before, cache.cache, blk.cksum, i, now);
    }
  }

  /** Levels 1 and 2: unless the segments are equal, the parent segment goes into the cache, which is searched. */
  method SearchParentCached(lib: Library, cur: seq<Block>, parent: seq<Block>, cache: Lru.LruCache, now: nat,
                            flags: array<bv8>) returns (ghost held: seq<Lru.Entry>)
    requires flags.Length == |cur| && |parent| <= cache.capacity && Ready(cache)
    requires forall i :: 0 <= i < |cur| ==> flags[i] == 0
    modifies cache, flags
    ensures Ready(cache) && SameBlocksHeld(held, cache.cache)
    ensures ParentLevels(lib, cur, parent, old(cache.cache), held, now, cache.capacity, flags[..])
  {
    hide Lru.Refreshed, Lru.Holds, InBlocks, Ordered;
    held := cache.cache;
    if SegCksum(lib, cur) == SegCksum(lib, parent) {
      for i := 0 to |cur|
        invariant cache.cache == old(cache.cache)
        invariant forall k :: 0 <= k < |cur| ==> flags[k] == if k < i then IN_PARENT else 0
      {
        flags[i] := flags[i] | IN_PARENT;
      }
    } else {
      cache.AddItems(parent, now);
      held := cache.cache;
      for i := 0 to |cur|
        invariant Ready(cache) && SameBlocksHeld(held, cache.cache)
        invariant forall k :: i <= k < |cur| ==> flags[k] == 0
        invariant forall k :: 0 <= k < i ==> flags[k] == if Lru.Holds(held, cur[k].cksum) then IN_DIRTY_SEG else 0
      {
        var found := SearchCache(cur[i], cache, now + 1 + i);
        if found {
          flags[i] := flags[i] | IN_DIRTY_SEG;
        }
      }
    }
  }

  // ---------- the whole run ----------

  /**
   * Over a whole run the parent cache keeps every flag set beside the kept parent. It adds only level-2 hits on
   * recent blocks, and all of them as long as the blocks added to the cache fit it. Against the uncached program
   * no flag of a segment is lost if and only if the segment is beside a parent segment, or what that program
   * goes on comparing with neither equals it nor has any of its blocks.
   */
  method SimulateParentCached(lib: Library, segs: seq<seq<Block>>, parents: Option<Trace>, cds: seq<Block>,
                              cache: Lru.LruCache) returns (out: seq<seq<bv8>>)
    requires Ready(cache)
    requires parents.Some? ==>
               forall j :: 0 <= j < |parents.value.segs| ==> |parents.value.segs[j]| <= cache.capacity
    modifies cache
    ensures |out| == |segs|
    ensures forall j :: 0 <= j < |segs| ==> KeepsFlags(lib, segs[j], KeptParent(parents, j), cds, out[j])
    ensures forall j :: 0 <= j < |segs| ==>
              AddsRecentOnly(lib, segs[j], parents, j, cds, old(cache.cache), Added(lib, segs, parents, j + 1), out[j])
    ensures forall j :: 0 <= j < |segs| ==>
              FindsRecent(lib, segs[j], parents, j, old(cache.cache), Added(lib, segs, parents, j + 1),
                          cache.capacity, out[j])
    ensures forall j :: 0 <= j < |segs| ==>
              (KeepsFlags(lib, segs[j], ParentOf(parents, j), cds, out[j]) <==>
               !LosesFlags(lib, segs[j], parents, j))
  {
    hide Ready, KeepsFlags, AddsRecentOnly, FindsRecent, LosesFlags, Holding, ParentLevels, Added, WithCds,
      SameBlocksHeld;
    out := [];
    var now := 0;
    ghost var start := cache.cache;
    HoldingAtStart(lib, segs, parents, start, cache.capacity);
    for j := 0 to |segs|
      invariant |out| == j && Ready(cache) && now >= 0
      invariant Holding(cache.cache, start, cache.capacity, Added(lib, segs, parents, j))
      invariant forall k :: 0 <= k < j ==> SegmentOk(lib, segs, parents, k, cds, start, cache.capacity, out[k])
    {
      var cur := segs[j];
      var flags := new bv8[|cur|](_ => 0);
      ghost var c, held, at := cache.cache, cache.cache, now;
      if parents.Some? && j < |parents.value.segs| {
        held := SearchParentCached(lib, cur, parents.value.segs[j], cache, now, flags);
        now := now + |cur| + 1;
        HeldAfter(lib, segs, parents, j, c, held, start, at, cache.capacity, flags[..]);
        SameHolding(held, cache.cache, start, cache.capacity, Added(lib, segs, parents, j + 1));
      } else {
        NothingAdded(lib, segs, parents, j);
      }
      ghost var before := flags[..];
      AddCdsFlags(lib, cur, cds, flags);
      SegmentDone(lib, segs, parents, j, cds, start, c, held, at, cache.capacity, before, flags[..]);
      out := out + [flags[..]];
    }
  }

  /** What the contract says of segment j. */
  ghost predicate SegmentOk(lib: Library, segs: seq<seq<Block>>, parents: Option<Trace>, j: nat, cds: seq<Block>,
                            start: seq<Lru.Entry>, capacity: nat, flags: seq<bv8>)
    requires j < |segs|
  {
    && KeepsFlags(lib, segs[j], KeptParent(parents, j), cds, flags)
    && AddsRecentOnly(lib, segs[j], parents, j, cds, start, Added(lib, segs, parents, j + 1), flags)
    && FindsRecent(lib, segs[j], parents, j, start, Added(lib, segs, parents, j + 1), capacity, flags)
    && (KeepsFlags(lib, segs[j], ParentOf(parents, j), cds, flags) <==> !LosesFlags(lib, segs[j], parents, j))
  }

  lemma HoldingAtStart(lib: Library, segs: seq<seq<Block>>, parents: Option<Trace>, start: seq<Lru.Entry>,
                       capacity: nat)
    ensures Holding(start, start, capacity, Added(lib, segs, parents, 0))
  {
  }

  lemma NothingAdded(lib: Library, segs: seq<seq<Block>>, parents: Option<Trace>, j: nat)
    requires j < |segs| && KeptParent(parents, j).None?
    ensures Added(lib, segs, parents, j + 1) == Added(lib, segs, parents, j)
  {
  }

  lemma HeldAfter(lib: Library, segs: seq<seq<Block>>, parents: Option<Trace>, j: nat, c: seq<Lru.Entry>,
                  held: seq<Lru.Entry>, start: seq<Lru.Entry>, now: nat, capacity: nat, flags: seq<bv8>)
    requires j < |segs| && KeptParent(parents, j).Some?
    requires Holding(c, start, capacity, Added(lib, segs, parents, j))
    requires ParentLevels(lib, segs[j], parents.value.segs[j], c, held, now, capacity, flags)
    ensures Holding(held, start, capacity, Added(lib, segs, parents, j + 1))
  {
    hide Holding, Lru.Refreshed;
    var added := Added(lib, segs, parents, j);
    if AtLevelTwo(lib, segs[j], parents, j) {
      HoldingMore(c, held, start, capacity, added, parents.value.segs[j], now);
    } else {
      assert Added(lib, segs, parents, j + 1) == added;
    }
  }

  /** The flags before, with that of level 3 added. */
  ghost predicate WithCds(lib: Library, cur: seq<Block>, cds: seq<Block>, before: seq<bv8>, after: seq<bv8>) {
    && |before| == |after| == |cur|
    && forall i :: 0 <= i < |cur| ==>
         after[i] == before[i] | if Finds(lib, cds, cur[i].cksum) then IN_CDS else 0
  }

  /** Level 3 on top of levels 1 and 2. */
  method AddCdsFlags(lib: Library, cur: seq<Block>, cds: seq<Block>, flags: array<bv8>)
    requires flags.Length == |cur|
    modifies flags
    ensures WithCds(lib, cur, cds, old(flags[..]), flags[..])
  {
    hide Finds;
    for i := 0 to |cur|
      invariant forall k :: i <= k < |cur| ==> flags[k] == old(flags[k])
      invariant forall k :: 0 <= k < i ==>
                  flags[k] == old(flags[k]) | if Finds(lib, cds, cur[k].cksum) then IN_CDS else 0
    {
      if Finds(lib, cds, cur[i].cksum) {
        flags[i] := flags[i] | IN_CDS;
      } else {
        OrZero(flags[i]);
      }
    }
  }

  lemma OrZero(a: bv8)
    ensures a | 0 == a
  {
  }

  /** What one segment contributes: before holds its flags of levels 1 and 2, after all its flags. */
  lemma SegmentDone(lib: Library, segs: seq<seq<Block>>, parents: Option<Trace>, j: nat, cds: seq<Block>,
                    start: seq<Lru.Entry>, c: seq<Lru.Entry>, held: seq<Lru.Entry>, now: nat, capacity: nat,
                    before: seq<bv8>, after: seq<bv8>)
    requires j < |segs| && |before| == |segs[j]| && WithCds(lib, segs[j], cds, before, after)
    requires if KeptParent(parents, j).Some?
             then ParentLevels(lib, segs[j], parents.value.segs[j], c, held, now, capacity, before)
                  && Holding(held, start, capacity, Added(lib, segs, parents, j + 1))
             else forall i :: 0 <= i < |segs[j]| ==> before[i] == 0
    ensures SegmentOk(lib, segs, parents, j, cds, start, capacity, after)
  {
    hide Finds, Added, InBlocks, Lru.Holds, Lru.Refreshed, BitsOf, SegCksum, Recent;
    var cur, added := segs[j], Added(lib, segs, parents, j + 1);
    forall i | 0 <= i < |cur|
      ensures BitsOf(Flags(lib, cur, KeptParent(parents, j), cds, i), after[i])
      ensures after[i] == Flags(lib, cur, KeptParent(parents, j), cds, i)
              || (after[i] == Flags(lib, cur, KeptParent(parents, j), cds, i) | IN_DIRTY_SEG
                  && AtLevelTwo(lib, cur, parents, j) && Recent(start, added, cur[i].cksum))
      ensures (AtLevelTwo(lib, cur, parents, j) && |start| + |added| <= capacity && Recent(start, added, cur[i].cksum))
              ==> BitsOf(IN_DIRTY_SEG, after[i])
      ensures BitsOf(Flags(lib, cur, ParentOf(parents, j), cds, i), after[i]) <==>
              KeptParent(parents, j).Some? || ParentFlags(lib, cur, ParentOf(parents, j), i) == 0
    {
      var f := if Finds(lib, cds, cur[i].cksum) then IN_CDS else 0;
      ParentFlagValues(lib, cur, KeptParent(parents, j), i);
      ParentFlagValues(lib, cur, ParentOf(parents, j), i);
      if AtLevelTwo(lib, cur, parents, j) {
        RefreshedHas(c, held, parents.value.segs[j], now, capacity, cur[i].cksum);
      }
      OneFlag(before[i], ParentFlags(lib, cur, KeptParent(parents, j), i), f);
      OneFlag(before[i], ParentFlags(lib, cur, ParentOf(parents, j), i), f);
    }
    Losing(lib, cur, parents, j);
  }

  /** b is the flag kept here, p that of the uncached program, and c that of level 3. */
  lemma OneFlag(b: bv8, p: bv8, c: bv8)
    requires c == 0 || c == IN_CDS
    requires p == 0 || p == IN_PARENT || p == IN_DIRTY_SEG
    requires b == 0 || b == p || (b == IN_DIRTY_SEG && p == 0)
    ensures BitsOf(p | c, b | c) <==> b == p || p == 0
    ensures b == IN_DIRTY_SEG ==> b | c == (p | c) | IN_DIRTY_SEG && BitsOf(IN_DIRTY_SEG, b | c)
  {
  }

  lemma Losing(lib: Library, cur: seq<Block>, parents: Option<Trace>, j: nat)
    ensures LosesFlags(lib, cur, parents, j) <==>
            KeptParent(parents, j).None?
            && exists i :: 0 <= i < |cur| && ParentFlags(lib, cur, ParentOf(parents, j), i) != 0
  {
    hide Finds, SegCksum;
    if LosesFlags(lib, cur, parents, j) {
      var p := ParentOf(parents, j).value;
      if SegCksum(lib, cur) == SegCksum(lib, p.blks) {
        assert ParentFlags(lib, cur, ParentOf(parents, j), 0) == IN_PARENT;
      } else {
        var i :| 0 <= i < |cur| && Finds(lib, p.blks, cur[i].cksum);
        assert ParentFlags(lib, cur, ParentOf(parents, j), i) == IN_DIRTY_SEG;
      }
    }
  }

  // ---------- a segment that loses its flags ----------

  /**
   * A parent trace of one block a and another b of the same checksum that wraps the 32-bit size to zero: its
   * load fails with both blocks left. The snapshot [a] is then found in them without the cache, and not with it.
   */
  method LostTailLosesFlags(lib: Library, b: Block, cache: Lru.LruCache)
      returns (uncached: seq<seq<bv8>>, cached: seq<seq<bv8>>)
    requires b.size > TWO_32 - FIX_SEGMENT_SIZE && Ready(cache)
    requires var a := b.(size := TWO_32 - b.size); SegCksum(lib, [a]) != SegCksum(lib, [a, b])
    modifies cache
    ensures uncached == [[IN_DIRTY_SEG]] && cached == [[0]]
  {
    hide Split, EncodeAll, NonEmpty, Lost, SegCksum;
    var a := b.(size := TWO_32 - b.size);
    var input := new InStream(EncodeAll([a, b]));
    var parents := LoadTrace(lib.hash, input);
    WrapLosesSegment(b);
    SplitKeepsTrace(EncodeAll([a, b]));
    assert parents == Trace([], [a, b]);
    uncached := Simulate(lib, [[a]], Some(parents), []);
    cached := SimulateParentCached(lib, [[a]], Some(parents), [], cache);
    NotInNothing(lib, a.cksum);
    assert [a, b][0].cksum == a.cksum;
    assert Finds(lib, [a, b], a.cksum);
    assert uncached[0] == [IN_DIRTY_SEG];
    assert cached[0] == [0];
  }

  lemma NotInNothing(lib: Library, ck: Checksum)
    ensures !Finds(lib, [], ck)
  {
  }
}
