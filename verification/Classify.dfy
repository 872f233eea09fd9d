/** The duplicate classification of a snapshot: without caches, and with the CDS cache. */
module Classify {
  import opened Bytes
  import opened Chunking
  import opened TraceTypes
  import opened StdSort
  import opened Segments
  import opened Histogram
  import Cds = CdsLruCache

  const IN_PARENT: bv8 := 0x01
  const IN_CDS: bv8 := 0x02
  const IN_DIRTY_SEG: bv8 := 0x05
  const IN_CDS_CACHE: bv8 := 0x0a
  const CACHE_BIT: bv8 := 0x08

  // ---------- library search and sort ----------

  /** Code outside these programs: SHA-1, and what std::binary_search answers on a list that is not in order. */
  datatype Library = Library(hash: Hash, search: (seq<Block>, Checksum) -> bool)

  predicate InBlocks(bs: seq<Block>, ck: Checksum) {
    exists i :: 0 <= i < |bs| && bs[i].cksum == ck
  }

  /** std::binary_search: exact on a list in hash order, and some fixed answer on any other. */
  predicate Finds(lib: Library, s: seq<Block>, ck: Checksum) {
    if SortedByHash(s) then InBlocks(s, ck) else lib.search(s, ck)
  }

  method SortByHash(s: seq<Block>) returns (r: seq<Block>)
    ensures SortedByHash(r) && multiset(r) == multiset(s)
    ensures forall ck :: InBlocks(r, ck) == InBlocks(s, ck)
  {
    hide Key;
    r := Sort(s, (b: Block) => Key(b.cksum));
    forall ck
      ensures InBlocks(r, ck) == InBlocks(s, ck)
    {
      SameBlocks(r, s, ck);
      SameBlocks(s, r, ck);
    }
  }

  lemma SameBlocks(a: seq<Block>, b: seq<Block>, ck: Checksum)
    requires multiset(a) == multiset(b)
    ensures InBlocks(a, ck) ==> InBlocks(b, ck)
  {
    if InBlocks(a, ck) {
      var i :| 0 <= i < |a| && a[i].cksum == ck;
      assert a[i] in multiset(a) && a[i] in b;
    }
  }

  // ---------- parent segments ----------

  /** What loading a trace segment by segment gives: the segments, and what the load that fails has read. */
  datatype Trace = Trace(segs: seq<seq<Block>>, tail: seq<Block>)

  function TraceOf(s: seq<u8>): Trace {
    Trace(Split(s), Lost(NonEmpty(s)))
  }

  /** Loads segments until one fails; nothing is left to read then. */
  method LoadTrace(hash: Hash, input: InStream) returns (trace: Trace)
    modifies input
    ensures trace == TraceOf(old(input.rest)) && input.rest == []
  {
    hide Split, Fill, NonEmpty, Lost, Segment.Valid, Size32, CksumBytes;
    ghost var s := input.rest;
    var seg := new Segment(hash);
    var segs: seq<seq<Block>> := [];
    while true
      invariant fresh(seg)
      invariant Split(s) == segs + Split(input.rest) && Lost(NonEmpty(s)) == Lost(NonEmpty(input.rest))
      decreases |input.rest|
    {
      LoadStep(input.rest);
      var ok := seg.LoadFixSize(input);
      if !ok {
        return Trace(segs, seg.blocklist);
      }
      segs := segs + [seg.blocklist];
    }
  }

  /** The blocks of a parent segment: loaded and sorted, or left over from a load that failed, in trace order. */
  datatype Parent = Loaded(blks: seq<Block>) | LeftOver(blks: seq<Block>)

  /** The parent segment beside segment j. A load that fails leaves what it has read; later ones leave nothing. */
  function ParentOf(parents: Option<Trace>, j: nat): Option<Parent> {
    match parents
    case None => None
    case Some(t) => Some(if j < |t.segs| then Loaded(t.segs[j]) else LeftOver(if j == |t.segs| then t.tail else []))
  }

  /** The search in a parent segment, which is a binary one. */
  predicate InParent(lib: Library, parent: Parent, ck: Checksum) {
    match parent
    case Loaded(bs) => InBlocks(bs, ck)
    case LeftOver(bs) => Finds(lib, bs, ck)
  }

  // ---------- what each block's flags must be ----------

  function SegCksum(lib: Library, bs: seq<Block>): Checksum {
    lib.hash(CksumBytes(bs))
  }

  /** Levels 1 and 2: the whole segment equals the parent segment, or the block occurs in it. */
  function ParentFlags(lib: Library, cur: seq<Block>, parent: Option<Parent>, i: nat): bv8
    requires i < |cur|
  {
    match parent
    case None => 0
    case Some(p) =>
      if SegCksum(lib, cur) == SegCksum(lib, p.blks) then IN_PARENT
      else if InParent(lib, p, cur[i].cksum) then IN_DIRTY_SEG
      else 0
  }

  /** All three levels, without any cache. */
  function Flags(lib: Library, cur: seq<Block>, parent: Option<Parent>, cds: seq<Block>, i: nat): bv8
    requires i < |cur|
  {
    ParentFlags(lib, cur, parent, i) | if Finds(lib, cds, cur[i].cksum) then IN_CDS else 0
  }

  /**
   * What each bit says: 1 for a duplicate of the parent segment, at level 1 or 2; 4 for one at level 2, where
   * only the block is found; 2 for one of the CDS.
   */
  lemma BitsMean(lib: Library, cur: seq<Block>, parent: Option<Parent>, cds: seq<Block>, i: nat)
    requires i < |cur|
    ensures var f := Flags(lib, cur, parent, cds, i);
            var equal := parent.Some? && SegCksum(lib, cur) == SegCksum(lib, parent.value.blks);
            var found := parent.Some? && InParent(lib, parent.value, cur[i].cksum);
            && (f & 0x01 != 0 <==> equal || found)
            && (f & 0x04 != 0 <==> !equal && found)
            && (f & 0x02 != 0 <==> Finds(lib, cds, cur[i].cksum))
            && f & !0x07 == 0
  {
    hide Finds, InParent, SegCksum;
  }

  /**
   * Without a collision between the two segments, the flag of level 1 is set exactly if they list the same
   * checksums in the same order.
   */
  lemma LevelOneMeans(lib: Library, cur: seq<Block>, parent: Parent, i: nat)
    requires i < |cur|
    requires lib.hash(CksumBytes(cur)) == lib.hash(CksumBytes(parent.blks)) ==>
               CksumBytes(cur) == CksumBytes(parent.blks)
    ensures ParentFlags(lib, cur, Some(parent), i) == IN_PARENT <==> SameCksums(cur, parent.blks)
  {
    SameCksumBytes(cur, parent.blks);
  }

  ghost predicate Flagged(lib: Library, segs: seq<seq<Block>>, parents: Option<Trace>, cds: seq<Block>,
                          out: seq<seq<bv8>>)
  {
    && |out| == |segs|
    && forall j :: 0 <= j < |segs| ==> FlaggedSegment(lib, segs[j], ParentOf(parents, j), cds, out[j])
  }

  ghost predicate FlaggedSegment(lib: Library, cur: seq<Block>, parent: Option<Parent>, cds: seq<Block>,
                                 flags: seq<bv8>)
  {
    && |flags| == |cur|
    && forall i :: 0 <= i < |cur| ==> flags[i] == Flags(lib, cur, parent, cds, i)
  }

  /** The flags with the cache bit cleared. */
  function Masked(flags: seq<bv8>): (r: seq<bv8>)
    ensures |r| == |flags|
  {
    seq(|flags|, i requires 0 <= i < |flags| => flags[i] & !CACHE_BIT)
  }

  // ---------- levels 1 and 2 ----------

  /** Clears the flags and sets those of the parent levels. */
  method SearchParent(lib: Library, cur: seq<Block>, parent: Option<Parent>, flags: array<bv8>)
    requires flags.Length == |cur|
    modifies flags
    ensures forall i :: 0 <= i < |cur| ==> flags[i] == ParentFlags(lib, cur, parent, i)
  {
    hide SortedByHash, InBlocks;
    for i := 0 to |cur|
      invariant forall k :: 0 <= k < i ==> flags[k] == 0
    {
      flags[i] := 0;
    }
    if parent == None {
      return;
    }
    var searched := parent.value.blks;
    if parent.value.Loaded? {
      searched := SortByHash(searched);
    }
    if SegCksum(lib, cur) == SegCksum(lib, parent.value.blks) {
      for i := 0 to |cur|
        invariant forall k :: 0 <= k < |cur| ==> flags[k] == if k < i then IN_PARENT else 0
      {
        flags[i] := flags[i] | IN_PARENT;
      }
    } else {
      for i := 0 to |cur|
        invariant forall k :: i <= k < |cur| ==> flags[k] == 0
        invariant forall k :: 0 <= k < i ==> flags[k] == ParentFlags(lib, cur, parent, k)
      {
        if Finds(lib, searched, cur[i].cksum) {
          flags[i] := flags[i] | IN_DIRTY_SEG;
        }
      }
    }
  }

  // ---------- the simulator without a cache ----------

  method ClassifySegment(lib: Library, cur: seq<Block>, parent: Option<Parent>, cds: seq<Block>, flags: array<bv8>)
    requires flags.Length == |cur|
    modifies flags
    ensures FlaggedSegment(lib, cur, parent, cds, flags[..])
  {
    SearchParent(lib, cur, parent, flags);
    for i := 0 to |cur|
      invariant forall k :: 0 <= k < i ==> flags[k] == Flags(lib, cur, parent, cds, k)
      invariant forall k :: i <= k < |cur| ==> flags[k] == ParentFlags(lib, cur, parent, k)
    {
      if Finds(lib, cds, cur[i].cksum) {
        flags[i] := flags[i] | IN_CDS;
      }
    }
  }

  method Simulate(lib: Library, segs: seq<seq<Block>>, parents: Option<Trace>, cds: seq<Block>)
      returns (out: seq<seq<bv8>>)
    ensures Flagged(lib, segs, parents, cds, out)
  {
    hide FlaggedSegment;
    out := [];
    for j := 0 to |segs|
      invariant |out| == j
      invariant forall k :: 0 <= k < j ==> FlaggedSegment(lib, segs[k], ParentOf(parents, k), cds, out[k])
    {
      var flags := new bv8[|segs[j]|](_ => 0);
      ClassifySegment(lib, segs[j], ParentOf(parents, j), cds, flags);
      out := out + [flags[..]];
    }
  }

  // ---------- the simulator with the CDS cache ----------

  /** The cache holds only blocks that the search in the CDS finds, each under its own checksum. */
  ghost predicate CacheOk(cache: Cds.CdsLruCache, lib: Library, cds: seq<Block>)
    reads cache
  {
    cache.capacity >= 10 && Cds.Keyed(cache.cache) && Within(cache.cache, lib, cds)
  }

  ghost predicate Within(c: Cds.Contents, lib: Library, cds: seq<Block>) {
    forall ck :: ck in c ==> Finds(lib, cds, ck)
  }

  lemma CachedFlag(base: bv8, inCds: bool)
    requires base == 0 || base == IN_PARENT || base == IN_DIRTY_SEG
    ensures (base | IN_CDS_CACHE) & !CACHE_BIT == base | IN_CDS
    ensures (base | IN_CDS) & !CACHE_BIT == base | IN_CDS
    ensures base & !CACHE_BIT == base | 0
  {
  }

  lemma StepWithin(capacity: nat, blk: Block, now: nat, c: Cds.Contents, r: Cds.Contents,
                   lib: Library, cds: seq<Block>)
    requires capacity >= 10 && Cds.Keyed(c) && Within(c, lib, cds)
    requires Cds.Step(capacity, Cds.Add(blk), now, c, r) || Cds.Step(capacity, Cds.Search(blk), now, c, r)
    requires Finds(lib, cds, blk.cksum) || r == c
    ensures |r| <= Cds.Max(capacity, |c|) && Cds.Keyed(r) && Within(r, lib, cds)
  {
    hide Finds, Cds.Keyed;
    Cds.PutSize(c, blk, now);
    assert forall ck :: ck in r ==> ck in Cds.Put(c, blk, now).Keys;
    if Cds.Step(capacity, Cds.Add(blk), now, c, r) {
      Cds.StepKeepsBound(capacity, Cds.Add(blk), now, c, r);
      Cds.StepKeepsKeyed(capacity, Cds.Add(blk), now, c, r);
    } else {
      Cds.StepKeepsBound(capacity, Cds.Search(blk), now, c, r);
      Cds.StepKeepsKeyed(capacity, Cds.Search(blk), now, c, r);
    }
  }

  lemma IsWithin(c: Cds.Contents, lib: Library, cds: seq<Block>, ck: Checksum)
    requires Within(c, lib, cds)
    ensures ck in c ==> Finds(lib, cds, ck)
  {
  }

  // ---------- what the cache holds ----------

  /** The block as it is when it goes into the cache: with its flags in place of the file_id. */
  function Marked(blk: Block, flags: bv8): Block {
    blk.(fileId := flags as int)
  }

  /** What looking up one block does: a hit renews it, a miss that the CDS finds adds it, another miss nothing. */
  ghost predicate Looked(lib: Library, cds: seq<Block>, capacity: nat, blk: Block, marked: Block, now: nat,
                         c: Cds.Contents, r: Cds.Contents)
  {
    if blk.cksum in c then Cds.Step(capacity, Cds.Search(blk), now, c, r)
    else if Finds(lib, cds, blk.cksum) then Cds.Step(capacity, Cds.Add(marked), now + 1, c, r)
    else r == c
  }

  /** The checksums cached at the start, and those of bs that the CDS finds. */
  ghost function Expected(start: Cds.Contents, lib: Library, cds: seq<Block>, bs: seq<Block>): set<Checksum> {
    start.Keys + FoundIn(lib, cds, bs)
  }

  /** The checksums of bs that the CDS finds. */
  ghost function FoundIn(lib: Library, cds: seq<Block>, bs: seq<Block>): set<Checksum> {
    set b | b in bs && Finds(lib, cds, b.cksum) :: b.cksum
  }

  /** The keys are as expected after the blocks bs, as long as that fits the capacity. */
  ghost predicate KeysBecame(keys: set<Checksum>, start: Cds.Contents, lib: Library, cds: seq<Block>, capacity: nat,
                             bs: seq<Block>)
  {
    |Expected(start, lib, cds, bs)| <= capacity ==> keys == Expected(start, lib, cds, bs)
  }

  /** Each block cached is from the start or, with its flags, one of bs. */
  ghost predicate BlocksFrom(c: Cds.Contents, start: Cds.Contents, bs: seq<Block>) {
    forall k :: k in c ==> (k in start && c[k].blk == start[k].blk) || IsRecordOf(c[k].blk, bs)
  }

  /** c is what start has become after the blocks bs. */
  ghost predicate Became(c: Cds.Contents, start: Cds.Contents, lib: Library, cds: seq<Block>, capacity: nat,
                         bs: seq<Block>)
  {
    KeysBecame(c.Keys, start, lib, cds, capacity, bs) && BlocksFrom(c, start, bs)
  }

  lemma BecameAtStart(start: Cds.Contents, lib: Library, cds: seq<Block>, capacity: nat)
    ensures Became(start, start, lib, cds, capacity, [])
  {
    assert Expected(start, lib, cds, []) == start.Keys;
  }

  lemma ExpectedAppend(start: Cds.Contents, lib: Library, cds: seq<Block>, bs: seq<Block>, blk: Block)
    ensures Expected(start, lib, cds, bs + [blk]) ==
            Expected(start, lib, cds, bs) + if Finds(lib, cds, blk.cksum) then {blk.cksum} else {}
  {
    hide Finds;
    var more := bs + [blk];
    assert forall x :: x in more <==> x in bs || x == blk;
  }

  lemma RecordsAppend(bs: seq<Block>, blk: Block)
    ensures forall b :: IsRecordOf(b, bs) ==> IsRecordOf(b, bs + [blk])
    ensures forall b: Block :: b == blk.(fileId := b.fileId) ==> IsRecordOf(b, bs + [blk])
  {
    var more := bs + [blk];
    assert more[|bs|] == blk && forall i :: 0 <= i < |bs| ==> more[i] == bs[i];
  }

  lemma BecomesStep(c: Cds.Contents, r: Cds.Contents, start: Cds.Contents, lib: Library, cds: seq<Block>,
                    capacity: nat, bs: seq<Block>, blk: Block, flags: bv8, now: nat)
    requires Became(c, start, lib, cds, capacity, bs) && Within(c, lib, cds)
    requires Looked(lib, cds, capacity, blk, Marked(blk, flags), now, c, r)
    ensures Became(r, start, lib, cds, capacity, bs + [blk])
  {
    hide KeysBecame, BlocksFrom, Within, Finds;
    KeysStep(c, r, start, lib, cds, capacity, bs, blk, flags, now);
    BlocksStep(c, r, start, lib, cds, capacity, bs, blk, flags, now);
  }

  lemma KeysStep(c: Cds.Contents, r: Cds.Contents, start: Cds.Contents, lib: Library, cds: seq<Block>,
                 capacity: nat, bs: seq<Block>, blk: Block, flags: bv8, now: nat)
    requires KeysBecame(c.Keys, start, lib, cds, capacity, bs) && Within(c, lib, cds)
    requires Looked(lib, cds, capacity, blk, Marked(blk, flags), now, c, r)
    ensures KeysBecame(r.Keys, start, lib, cds, capacity, bs + [blk])
  {
    hide Finds, Expected, Cds.Put, Cds.EvictsOldest, Within;
    var e, f := Expected(start, lib, cds, bs), Expected(start, lib, cds, bs + [blk]);
    ExpectedAppend(start, lib, cds, bs, blk);
    Cds.SubsetSize(e, f);
    if |f| <= capacity {
      IsWithin(c, lib, cds, blk.cksum);
      if blk.cksum in c {
        Cds.HitRenews(capacity, blk, now, c, r);
        assert e + {blk.cksum} == e;
      } else if Finds(lib, cds, blk.cksum) {
        Cds.AddStores(capacity, Marked(blk, flags), now + 1, c, r);
      }
    }
  }

  lemma BlocksStep(c: Cds.Contents, r: Cds.Contents, start: Cds.Contents, lib: Library, cds: seq<Block>,
                   capacity: nat, bs: seq<Block>, blk: Block, flags: bv8, now: nat)
    requires BlocksFrom(c, start, bs) && Looked(lib, cds, capacity, blk, Marked(blk, flags), now, c, r)
    ensures BlocksFrom(r, start, bs + [blk])
  {
    hide Finds, IsRecordOf;
    RecordsAppend(bs, blk);
    var m := Marked(blk, flags);
    assert IsRecordOf(m, bs + [blk]);
    forall k | k in r
      ensures (k in c && r[k].blk == c[k].blk) || r[k].blk == m
    {
      if blk.cksum in c {
        Cds.HitRenews(capacity, blk, now, c, r);
      } else if Finds(lib, cds, blk.cksum) {
        Cds.AddTakes(capacity, m, now + 1, c, r, k);
      }
    }
  }

  /**
   * A block has the cache bit if and only if its checksum was cached at the start or the CDS has found it
   * earlier, as long as all these fit the capacity.
   */
  ghost predicate BitsTellHits(start: Cds.Contents, lib: Library, cds: seq<Block>, capacity: nat, before: seq<Block>,
                               cur: seq<Block>, flags: seq<bv8>)
  {
    && |flags| == |cur|
    && forall i :: 0 <= i < |cur| ==>
         BitTellsHit(Expected(start, lib, cds, before + cur[..i]), capacity, cur[i].cksum, flags[i])
  }

  ghost predicate BitTellsHit(expected: set<Checksum>, capacity: nat, ck: Checksum, flags: bv8) {
    |expected| <= capacity ==> (flags & CACHE_BIT != 0 <==> ck in expected)
  }

  lemma BecameTells(c: Cds.Contents, start: Cds.Contents, lib: Library, cds: seq<Block>, capacity: nat,
                    bs: seq<Block>, ck: Checksum, flags: bv8)
    requires Became(c, start, lib, cds, capacity, bs) && (flags & CACHE_BIT != 0 <==> ck in c)
    ensures BitTellsHit(Expected(start, lib, cds, bs), capacity, ck, flags)
  {
  }

  /** Level 3 for one block: the cache first, then the CDS itself. */
  method SearchCds(lib: Library, blk: Block, cds: seq<Block>, cache: Cds.CdsLruCache, now: nat, base: bv8)
      returns (flag: bv8)
    requires CacheOk(cache, lib, cds)
    requires base == 0 || base == IN_PARENT || base == IN_DIRTY_SEG
    modifies cache
    ensures CacheOk(cache, lib, cds) && |cache.cache| <= Cds.Max(cache.capacity, |old(cache.cache)|)
    ensures flag & !CACHE_BIT == base | if Finds(lib, cds, blk.cksum) then IN_CDS else 0
    ensures flag & CACHE_BIT != 0 <==> blk.cksum in old(cache.cache)
    ensures Looked(lib, cds, cache.capacity, blk, Marked(blk, base | IN_CDS), now, old(cache.cache), cache.cache)
  {
    hide Finds, Within, Cds.EvictsOldest, Cds.Keyed;
    ghost var before := cache.cache;
    var hit := cache.SearchItem(blk, now);
    assert hit ==> Finds(lib, cds, blk.cksum) by { IsWithin(before, lib, cds, blk.cksum); }
    StepWithin(cache.capacity, blk, now, before, cache.cache, lib, cds);
    CachedFlag(base, true);
    flag := base;
    if hit {
      flag := base | IN_CDS_CACHE;
    } else if Finds(lib, cds, blk.cksum) {
      flag := base | IN_CDS;
      ghost var missed := cache.cache;
      cache.AddItem(Marked(blk, flag), now + 1);
      StepWithin(cache.capacity, Marked(blk, flag), now + 1, missed, cache.cache, lib, cds);
    }
  }

  lemma ParentFlagValues(lib: Library, cur: seq<Block>, parent: Option<Parent>, i: nat)
    requires i < |cur|
    ensures var f := ParentFlags(lib, cur, parent, i); f == 0 || f == IN_PARENT || f == IN_DIRTY_SEG
  {
  }

  /** One block of a run: besides its flag, what the cache has become. */
  method SearchNext(lib: Library, blk: Block, cds: seq<Block>, cache: Cds.CdsLruCache, now: nat, base: bv8,
                    ghost start: Cds.Contents, ghost before: seq<Block>) returns (flag: bv8)
    requires CacheOk(cache, lib, cds) && Became(cache.cache, start, lib, cds, cache.capacity, before)
    requires base == 0 || base == IN_PARENT || base == IN_DIRTY_SEG
    modifies cache
    ensures CacheOk(cache, lib, cds) && |cache.cache| <= Cds.Max(cache.capacity, |old(cache.cache)|)
    ensures flag & !CACHE_BIT == base | if Finds(lib, cds, blk.cksum) then IN_CDS else 0
    ensures Became(cache.cache, start, lib, cds, cache.capacity, before + [blk])
    ensures BitTellsHit(Expected(start, lib, cds, before), cache.capacity, blk.cksum, flag)
  {
    hide CacheOk, Within, Finds, Became, Looked, Expected, BitTellsHit;
    ghost var c := cache.cache;
    OkWithin(cache, lib, cds);
    flag := SearchCds(lib, blk, cds, cache, now, base);
    BecameTells(c, start, lib, cds, cache.capacity, before, blk.cksum, flag);
    BecomesStep(c, cache.cache, start, lib, cds, cache.capacity, before, blk, base | IN_CDS, now);
  }

  /** The flags of block i are final: those without a cache, and a cache bit that tells the hits. */
  ghost predicate Final(lib: Library, cur: seq<Block>, parent: Option<Parent>, cds: seq<Block>, i: nat,
                        start: Cds.Contents, capacity: nat, before: seq<Block>, flags: bv8)
    requires i < |cur|
  {
    && flags & !CACHE_BIT == Flags(lib, cur, parent, cds, i)
    && BitTellsHit(Expected(start, lib, cds, before + cur[..i]), capacity, cur[i].cksum, flags)
  }

  /** One segment: out agrees with the flags without cache once the cache bit is cleared. */
  method ClassifySegmentCached(lib: Library, cur: seq<Block>, parent: Option<Parent>, cds: seq<Block>,
                               cache: Cds.CdsLruCache, now: nat, ghost start: Cds.Contents,
                               ghost before: seq<Block>) returns (out: seq<bv8>)
    requires CacheOk(cache, lib, cds) && Became(cache.cache, start, lib, cds, cache.capacity, before)
    modifies cache
    ensures CacheOk(cache, lib, cds) && |cache.cache| <= Cds.Max(cache.capacity, |old(cache.cache)|)
    ensures FlaggedSegment(lib, cur, parent, cds, Masked(out))
    ensures Became(cache.cache, start, lib, cds, cache.capacity, before + cur)
    ensures BitsTellHits(start, lib, cds, cache.capacity, before, cur, out)
  {
    hide CacheOk, Finds, ParentFlags, Became, Expected, BitTellsHit, Final;
    assert before + cur[..0] == before;
    var flags := new bv8[|cur|](_ => 0);
    SearchParent(lib, cur, parent, flags);
    for i := 0 to |cur|
      invariant CacheOk(cache, lib, cds) && |cache.cache| <= Cds.Max(cache.capacity, |old(cache.cache)|)
      invariant Became(cache.cache, start, lib, cds, cache.capacity, before + cur[..i])
      invariant forall k :: 0 <= k < i ==> Final(lib, cur, parent, cds, k, start, cache.capacity, before, flags[k])
      invariant forall k :: i <= k < |cur| ==> flags[k] == ParentFlags(lib, cur, parent, k)
    {
      ParentFlagValues(lib, cur, parent, i);
      var flag := SearchNext(lib, cur[i], cds, cache, now + 2 * i, flags[i], start, before + cur[..i]);
      assert before + cur[..i + 1] == before + cur[..i] + [cur[i]];
      assert Final(lib, cur, parent, cds, i, start, cache.capacity, before, flag) by {
        IsFinal(lib, cur, parent, cds, i, start, cache.capacity, before, flag);
      }
      flags[i] := flag;
    }
    assert cur[..|cur|] == cur;
    out := flags[..];
    AllFinal(lib, cur, parent, cds, start, cache.capacity, before, out);
  }

  lemma IsFinal(lib: Library, cur: seq<Block>, parent: Option<Parent>, cds: seq<Block>, i: nat,
                start: Cds.Contents, capacity: nat, before: seq<Block>, flags: bv8)
    requires i < |cur|
    requires flags & !CACHE_BIT ==
             ParentFlags(lib, cur, parent, i) | if Finds(lib, cds, cur[i].cksum) then IN_CDS else 0
    requires BitTellsHit(Expected(start, lib, cds, before + cur[..i]), capacity, cur[i].cksum, flags)
    ensures Final(lib, cur, parent, cds, i, start, capacity, before, flags)
  {
  }

  lemma AllFinal(lib: Library, cur: seq<Block>, parent: Option<Parent>, cds: seq<Block>, start: Cds.Contents,
                 capacity: nat, before: seq<Block>, flags: seq<bv8>)
    requires |flags| == |cur|
    requires forall k :: 0 <= k < |cur| ==> Final(lib, cur, parent, cds, k, start, capacity, before, flags[k])
    ensures FlaggedSegment(lib, cur, parent, cds, Masked(flags))
    ensures BitsTellHits(start, lib, cds, capacity, before, cur, flags)
  {
    hide Flags, Expected, BitTellsHit;
  }

  lemma OkWithin(cache: Cds.CdsLruCache, lib: Library, cds: seq<Block>)
    requires CacheOk(cache, lib, cds)
    ensures Within(cache.cache, lib, cds)
  {
  }

  lemma FlattenNone(segs: seq<seq<Block>>)
    ensures Flatten(segs[..0]) == []
  {
  }

  /** In every segment the cache bits tell the hits. */
  ghost predicate CacheBits(start: Cds.Contents, lib: Library, cds: seq<Block>, capacity: nat, segs: seq<seq<Block>>,
                            out: seq<seq<bv8>>)
  {
    && |out| == |segs|
    && forall j :: 0 <= j < |segs| ==> BitsTellHits(start, lib, cds, capacity, Flatten(segs[..j]), segs[j], out[j])
  }

  /** Cache transparency: over a whole run the cache stays within the CDS and changes no answer. */
  method SimulateCached(lib: Library, segs: seq<seq<Block>>, parents: Option<Trace>, cds: seq<Block>,
                        cache: Cds.CdsLruCache) returns (out: seq<seq<bv8>>)
    requires CacheOk(cache, lib, cds)
    modifies cache
    ensures CacheOk(cache, lib, cds) && |out| == |segs|
    ensures |cache.cache| <= Cds.Max(cache.capacity, |old(cache.cache)|)
    ensures Flagged(lib, segs, parents, cds, seq(|out|, j requires 0 <= j < |out| => Masked(out[j])))
    ensures CacheBits(old(cache.cache), lib, cds, cache.capacity, segs, out)
    ensures Became(cache.cache, old(cache.cache), lib, cds, cache.capacity, Flatten(segs))
  {
    hide FlaggedSegment, CacheOk, Became, BitsTellHits, ParentOf, Flatten;
    out := [];
    var now := 0;
    ghost var start := cache.cache;
    BecameAtStart(start, lib, cds, cache.capacity);
    FlattenNone(segs);
    assert segs[..|segs|] == segs;
    for j := 0 to |segs|
      invariant |out| == j && CacheOk(cache, lib, cds) && now >= 0
      invariant |cache.cache| <= Cds.Max(cache.capacity, |old(cache.cache)|)
      invariant forall k :: 0 <= k < j ==> FlaggedSegment(lib, segs[k], ParentOf(parents, k), cds, Masked(out[k]))
      invariant Became(cache.cache, start, lib, cds, cache.capacity, Flatten(segs[..j]))
      invariant forall k :: 0 <= k < j ==>
                  BitsTellHits(start, lib, cds, cache.capacity, Flatten(segs[..k]), segs[k], out[k])
    {
      FlattenAppend(segs[..j], segs[j]);
      assert segs[..j + 1] == segs[..j] + [segs[j]];
      var flags := ClassifySegmentCached(lib, segs[j], ParentOf(parents, j), cds, cache, now, start,
                                         Flatten(segs[..j]));
      out := out + [flags];
      now := now + 2 * |segs[j]|;
    }
  }

  /** A cache file of blocks that the search in the CDS finds. */
  ghost predicate StoredOk(stored: seq<Block>, lib: Library, cds: seq<Block>) {
    forall i :: 0 <= i < |stored| ==> Finds(lib, cds, stored[i].cksum)
  }

  lemma LoadedOk(stored: seq<Block>, lib: Library, cds: seq<Block>, now: nat)
    requires StoredOk(stored, lib, cds)
    ensures var c := Cds.PutAll(map[], stored, now);
            |c| == |Distinct(stored)| && Cds.Keyed(c) && Within(c, lib, cds)
  {
    hide Finds, Cds.PutAll, Cds.Keyed;
    assert Cds.Keyed(map[]) by { Cds.NothingKeyed(); }
    Cds.PutAllKeyed(map[], stored, now);
    Cds.LoadedKeys(stored, now);
    Cds.LoadedSize(stored, now);
  }

  lemma SavedOk(c: Cds.Contents, kept: seq<Block>, lib: Library, cds: seq<Block>)
    requires Cds.Keyed(c) && Cds.Saved(c, kept) && Within(c, lib, cds)
    ensures StoredOk(kept, lib, cds) && |Distinct(kept)| == |c| && SortedByHash(kept)
  {
    hide Finds, SortedByHash;
    Cds.SavedKeys(c, kept);
  }

  lemma KeptBlocks(start: Cds.Contents, c: Cds.Contents, lib: Library, cds: seq<Block>, capacity: nat,
                   stored: seq<Block>, segs: seq<seq<Block>>, kept: seq<Block>)
    requires start == Cds.PutAll(map[], stored, 0) && Became(c, start, lib, cds, capacity, Flatten(segs))
    requires Cds.Keyed(c) && Cds.Saved(c, kept)
    ensures forall i :: 0 <= i < |kept| ==> kept[i] in stored || IsRecordOf(kept[i], Flatten(segs))
    ensures var all := Distinct(stored) + FoundIn(lib, cds, Flatten(segs));
            |all| <= capacity ==> Distinct(kept) == all
  {
    hide Cds.PutAll, Finds, IsRecordOf, Distinct, Flatten, SortedByHash;
    Cds.LoadedFrom(stored, 0);
    forall i | 0 <= i < |kept|
      ensures kept[i] in stored || IsRecordOf(kept[i], Flatten(segs))
    {
      assert kept[i] in kept && c[kept[i].cksum].blk == kept[i];
    }
    Cds.LoadedKeys(stored, 0);
    Cds.SavedKeys(c, kept);
    assert Expected(start, lib, cds, Flatten(segs)) == Distinct(stored) + FoundIn(lib, cds, Flatten(segs));
  }

  /**
   * The whole program with the cache file: loads the cache, classifies the snapshot and saves the cache. The
   * flags are those without a cache; the file left behind is fit for the next snapshot, and holds no more
   * than the capacity, unless the file loaded did. It holds blocks loaded or of the snapshot only, and all of
   * those that the CDS finds, as long as they fit.
   */
  method ClassifySnapshot(lib: Library, segs: seq<seq<Block>>, parents: Option<Trace>, cds: seq<Block>,
                          capacity: nat, stored: seq<Block>) returns (out: seq<seq<bv8>>, kept: seq<Block>)
    requires capacity >= 10 && StoredOk(stored, lib, cds)
    ensures StoredOk(kept, lib, cds) && SortedByHash(kept) && |out| == |segs|
    ensures |Distinct(kept)| <= Cds.Max(capacity, |Distinct(stored)|)
    ensures forall i :: 0 <= i < |kept| ==> kept[i] in stored || IsRecordOf(kept[i], Flatten(segs))
    ensures var all := Distinct(stored) + FoundIn(lib, cds, Flatten(segs));
            |all| <= capacity ==> Distinct(kept) == all
    ensures CacheBits(Cds.PutAll(map[], stored, 0), lib, cds, capacity, segs, out)
    ensures Flagged(lib, segs, parents, cds, seq(|out|, j requires 0 <= j < |out| => Masked(out[j])))
  {
    hide Flagged, StoredOk, Within, Cds.Keyed, Cds.PutAll, Cds.Saved, Distinct, CacheBits, FoundIn, Became;
    var cache := new Cds.CdsLruCache(capacity);
    cache.Load(stored, 0);
    LoadedOk(stored, lib, cds, 0);
    ghost var start := cache.cache;
    out := SimulateCached(lib, segs, parents, cds, cache);
    kept := cache.Save();
    SavedOk(cache.cache, kept, lib, cds);
    KeptBlocks(start, cache.cache, lib, cds, capacity, stored, segs, kept);
  }
}
