/** The bounded cache in front of the common data set, lru_cache.cpp. Access times are clock readings. */
module CdsLruCache {
  import opened TraceTypes
  import opened StdSort
  import opened Histogram

  /** A cached block and the time of its last access. */
  datatype Slot = Slot(blk: Block, time: nat)

  type Contents = map<Checksum, Slot>

  /** Stores a block now; a block that compares equal keeps its place under the old key. */
  function Put(c: Contents, blk: Block, now: nat): Contents {
    c[blk.cksum := Slot(if blk.cksum in c then c[blk.cksum].blk else blk, now)]
  }

  function PutAll(c: Contents, blks: seq<Block>, now: nat): Contents {
    if blks == [] then c else Put(PutAll(c, blks[..|blks| - 1], now), blks[|blks| - 1], now)
  }

  function Min(a: nat, b: nat): nat {
    if a < b then a else b
  }

  function Max(a: nat, b: nat): nat {
    if a < b then b else a
  }

  /** r is c without n of its entries (or without all), none of them newer than any that stays. */
  ghost predicate EvictsOldest(c: Contents, r: Contents, n: nat) {
    && r.Keys <= c.Keys && |r| == |c| - Min(n, |c|)
    && (forall k :: k in r ==> r[k] == c[k])
    && (forall e, k :: e in c && e !in r && k in r ==> c[e].time <= c[k].time)
  }

  datatype Op = Add(blk: Block) | BatchAdd(blks: seq<Block>) | Search(wanted: Block)

  /** What an operation at time now may turn the contents c into. */
  ghost predicate Step(capacity: nat, op: Op, now: nat, c: Contents, r: Contents) {
    match op
    case Add(blk) =>
      var p := Put(c, blk, now);
      if |p| <= capacity then r == p else EvictsOldest(p, r, capacity / 10)
    case BatchAdd(blks) =>
      var p := PutAll(c, blks, now);
      if |p| <= capacity then r == p else EvictsOldest(p, r, |p| - capacity + capacity / 10)
    case Search(wanted) =>
      r == if wanted.cksum in c then Put(c, wanted, now) else c
  }

  lemma PutSize(c: Contents, blk: Block, now: nat)
    ensures |Put(c, blk, now)| == if blk.cksum in c then |c| else |c| + 1
    ensures Put(c, blk, now).Keys == c.Keys + {blk.cksum}
  {
    var p := Put(c, blk, now);
    assert p.Keys == c.Keys + {blk.cksum};
    assert |p.Keys| == |p| && |c.Keys| == |c|;
  }

  // ---------- runs ----------

  datatype Call = Call(op: Op, now: nat)

  /** states is a run of calls from states[0]. */
  ghost predicate Run(capacity: nat, calls: seq<Call>, states: seq<Contents>) {
    && |states| == |calls| + 1
    && forall i :: 0 <= i < |calls| ==> Step(capacity, calls[i].op, calls[i].now, states[i], states[i + 1])
  }

  lemma StepKeepsBound(capacity: nat, op: Op, now: nat, c: Contents, r: Contents)
    requires capacity >= 10 && Step(capacity, op, now, c, r)
    ensures |r| <= Max(capacity, |c|)
  {
    match op
    case Add(blk) => PutSize(c, blk, now);
    case BatchAdd(blks) =>
    case Search(wanted) => PutSize(c, wanted, now);
  }

  /** Over every run the cache never holds more than capacity entries, unless it has done so from the start. */
  lemma {:induction false} RunKeepsBound(capacity: nat, calls: seq<Call>, states: seq<Contents>, i: nat)
    requires capacity >= 10 && Run(capacity, calls, states) && i < |states|
    ensures |states[i]| <= Max(capacity, |states[0]|)
  {
    if i > 0 {
      RunKeepsBound(capacity, calls, states, i - 1);
      StepKeepsBound(capacity, calls[i - 1].op, calls[i - 1].now, states[i - 1], states[i]);
    }
  }

  /** A hit renews the access time of its entry and changes nothing else. */
  lemma HitRenews(capacity: nat, wanted: Block, now: nat, c: Contents, r: Contents)
    requires Step(capacity, Search(wanted), now, c, r)
    ensures r.Keys == c.Keys
    ensures forall k :: k in c ==>
              r[k].blk == c[k].blk && r[k].time == if k == wanted.cksum then now else c[k].time
  {
  }

  /** As long as there is room, adding a block stores it under its checksum, or renews the entry there. */
  lemma AddStores(capacity: nat, blk: Block, now: nat, c: Contents, r: Contents)
    requires Step(capacity, Add(blk), now, c, r) && |c.Keys + {blk.cksum}| <= capacity
    ensures r.Keys == c.Keys + {blk.cksum} && r[blk.cksum].time == now
    ensures r[blk.cksum].blk == if blk.cksum in c then c[blk.cksum].blk else blk
    ensures forall k :: k in c && k != blk.cksum ==> r[k] == c[k]
  {
    PutSize(c, blk, now);
    assert |c.Keys| == |c|;
    assert blk.cksum in c ==> c.Keys + {blk.cksum} == c.Keys;
  }

  /** Once a full cache takes in a new block, a tenth of the capacity, rounded down, has to go. */
  lemma AddEvictsTenth(capacity: nat, blk: Block, now: nat, c: Contents, r: Contents)
    requires Step(capacity, Add(blk), now, c, r) && |c| == capacity && blk.cksum !in c
    ensures var gone := capacity + 1 - |r|;
            10 * gone <= capacity < 10 * (gone + 1)
  {
    PutSize(c, blk, now);
  }

  /** A batch that does not fit leaves a tenth of the capacity, rounded down, free. */
  lemma BatchLeavesTenth(capacity: nat, blks: seq<Block>, now: nat, c: Contents, r: Contents)
    requires Step(capacity, BatchAdd(blks), now, c, r) && |PutAll(c, blks, now)| > capacity
    ensures var free := capacity - |r|;
            10 * free <= capacity < 10 * (free + 1)
  {
  }

  /** Adding a block brings in nothing but that block. */
  lemma AddTakes(capacity: nat, blk: Block, now: nat, c: Contents, r: Contents, k: Checksum)
    requires Step(capacity, Add(blk), now, c, r) && k in r
    ensures (k in c && r[k].blk == c[k].blk) || (k == blk.cksum && r[k].blk == blk)
  {
  }

  ghost predicate OlderThan(c: Contents, now: nat) {
    forall k :: k in c ==> c[k].time < now
  }

  /** When all other entries are older, the entry just added is not evicted. */
  lemma AddedStays(capacity: nat, blk: Block, now: nat, c: Contents, r: Contents)
    requires capacity > 0 && OlderThan(c, now) && |c| <= capacity
    requires Step(capacity, Add(blk), now, c, r)
    ensures blk.cksum in r && r[blk.cksum].time == now
  {
    var p := Put(c, blk, now);
    PutSize(c, blk, now);
    assert r.Keys != {} by { assert |r.Keys| == |r| > 0; }
    var k :| k in r;
    assert k != blk.cksum ==> p[k] == c[k];
  }

  /** Under an increasing clock a block that was just found survives the next addition. */
  lemma HitSurvives(capacity: nat, wanted: Block, now: nat, blk: Block, later: nat,
                    c: Contents, s: Contents, r: Contents)
    requires capacity >= 10 && OlderThan(c, now) && now < later && wanted.cksum in c
    requires Step(capacity, Search(wanted), now, c, s) && Step(capacity, Add(blk), later, s, r)
    ensures wanted.cksum in r
  {
    var p := Put(s, blk, later);
    PutSize(s, blk, later);
    assert |r.Keys| == |r|;
    if forall k :: k in r ==> k == blk.cksum {
      SubsetSize(r.Keys, {blk.cksum});
    } else {
      var k :| k in r && k != blk.cksum;
      assert p[k] == s[k];
    }
  }

  lemma SubsetSize(a: set<Checksum>, b: set<Checksum>)
    requires a <= b
    ensures |a| <= |b|
  {
    assert b == a + (b - a);
  }

  lemma {:induction false} PutAllTimes(c: Contents, blks: seq<Block>, now: nat)
    requires OlderThan(c, now)
    ensures OlderThan(PutAll(c, blks, now), now + 1)
  {
    if blks != [] {
      PutAllTimes(c, blks[..|blks| - 1], now);
    }
  }

  lemma StepTimes(capacity: nat, op: Op, now: nat, c: Contents, r: Contents)
    requires Step(capacity, op, now, c, r) && OlderThan(c, now)
    ensures OlderThan(r, now + 1)
  {
    if op.BatchAdd? {
      PutAllTimes(c, op.blks, now);
    }
  }

  ghost predicate Increasing(calls: seq<Call>) {
    forall i, j :: 0 <= i < j < |calls| ==> calls[i].now < calls[j].now
  }

  /** Under a strictly increasing clock, over every run, each added block is cached right after its call. */
  lemma {:induction false} RunKeepsAdded(capacity: nat, calls: seq<Call>, states: seq<Contents>, i: nat)
    requires capacity >= 10 && Run(capacity, calls, states) && Increasing(calls) && i < |calls|
    requires |states[0]| <= capacity && OlderThan(states[0], calls[0].now)
    ensures OlderThan(states[i], calls[i].now)
    ensures calls[i].op.Add? ==> calls[i].op.blk.cksum in states[i + 1]
  {
    RunKeepsBound(capacity, calls, states, i);
    if i > 0 {
      RunKeepsAdded(capacity, calls, states, i - 1);
      StepTimes(capacity, calls[i - 1].op, calls[i - 1].now, states[i - 1], states[i]);
    }
    if calls[i].op.Add? {
      AddedStays(capacity, calls[i].op.blk, calls[i].now, states[i], states[i + 1]);
    }
  }

  // ---------- saving and loading ----------

  /** Each block is stored under its own checksum. */
  ghost predicate Keyed(c: Contents) {
    forall k :: k in c ==> c[k].blk.cksum == k
  }

  lemma NothingKeyed()
    ensures Keyed(map[])
  {
  }

  lemma {:induction false} PutAllKeyed(c: Contents, blks: seq<Block>, now: nat)
    requires Keyed(c)
    ensures Keyed(PutAll(c, blks, now))
  {
    if blks != [] {
      PutAllKeyed(c, blks[..|blks| - 1], now);
    }
  }

  lemma StepKeepsKeyed(capacity: nat, op: Op, now: nat, c: Contents, r: Contents)
    requires Step(capacity, op, now, c, r) && Keyed(c)
    ensures Keyed(r)
  {
    if op.BatchAdd? {
      PutAllKeyed(c, op.blks, now);
    }
  }

  /** Over every run each block stays under its own checksum, as saving needs it. */
  lemma {:induction false} RunKeepsKeyed(capacity: nat, calls: seq<Call>, states: seq<Contents>, i: nat)
    requires Run(capacity, calls, states) && Keyed(states[0]) && i < |states|
    ensures Keyed(states[i])
  {
    if i > 0 {
      RunKeepsKeyed(capacity, calls, states, i - 1);
      StepKeepsKeyed(capacity, calls[i - 1].op, calls[i - 1].now, states[i - 1], states[i]);
    }
  }

  /** blks lists the cached blocks, each once, in hash order, without their access times. */
  ghost predicate Saved(c: Contents, blks: seq<Block>) {
    && SortedByHash(blks) && |blks| == |c|
    && (forall k :: k in c ==> c[k].blk in blks)
    && (forall b :: b in blks ==> b.cksum in c && c[b.cksum].blk == b)
  }

  lemma {:induction false} LoadedPrefix(c: Contents, blks: seq<Block>, now: nat)
    requires forall b :: b in blks ==> b.cksum in c && c[b.cksum].blk == b
    ensures var r := PutAll(map[], blks, now);
            && (forall k :: k in r <==> exists b :: b in blks && b.cksum == k)
            && (forall k :: k in r ==> k in c && r[k] == Slot(c[k].blk, now))
  {
    if blks != [] {
      var t, b := blks[..|blks| - 1], blks[|blks| - 1];
      assert blks == t + [b];
      LoadedPrefix(c, t, now);
    }
  }

  /** Loading what was saved into an empty cache restores the blocks, all accessed now, and the size. */
  lemma LoadRestores(c: Contents, blks: seq<Block>, now: nat)
    requires Keyed(c) && Saved(c, blks)
    ensures var r := PutAll(map[], blks, now);
            r.Keys == c.Keys && |r| == |c| && forall k :: k in c ==> r[k] == Slot(c[k].blk, now)
  {
    LoadedPrefix(c, blks, now);
    var r := PutAll(map[], blks, now);
    assert forall k :: k in c ==> c[k].blk in blks && c[k].blk.cksum == k;
    assert r.Keys == c.Keys;
    assert |r.Keys| == |r| && |c.Keys| == |c|;
  }

  /** A list loaded into an empty cache gives one entry for each of its checksums. */
  lemma {:induction false} LoadedKeys(blks: seq<Block>, now: nat)
    ensures PutAll(map[], blks, now).Keys == Distinct(blks)
  {
    if blks == [] {
      assert PutAll(map[], [], now).Keys == {} == Distinct([]);
    } else {
      hide Distinct, Put;
      var t, b := blks[..|blks| - 1], blks[|blks| - 1];
      LoadedKeys(t, now);
      PutSize(PutAll(map[], t, now), b, now);
      assert blks == t + [b];
      DistinctAppend(t, b);
    }
  }

  lemma LoadedSize(blks: seq<Block>, now: nat)
    ensures |PutAll(map[], blks, now)| == |Distinct(blks)|
  {
    hide Distinct, PutAll;
    LoadedKeys(blks, now);
    var r := PutAll(map[], blks, now);
    assert |r.Keys| == |r|;
  }

  lemma {:induction false} LoadedFrom(blks: seq<Block>, now: nat)
    ensures forall k :: k in PutAll(map[], blks, now) ==> PutAll(map[], blks, now)[k].blk in blks
  {
    if blks != [] {
      var t, b := blks[..|blks| - 1], blks[|blks| - 1];
      LoadedFrom(t, now);
      assert blks == t + [b];
    }
  }

  /** What is saved has as many checksums as the cache has entries, and they are the same. */
  lemma SavedKeys(c: Contents, blks: seq<Block>)
    requires Keyed(c) && Saved(c, blks)
    ensures Distinct(blks) == c.Keys && |Distinct(blks)| == |c|
  {
    hide Key;
    assert forall k :: k in c ==> c[k].blk in blks && c[k].blk.cksum == k;
    assert forall ck :: ck in Distinct(blks) <==> ck in c.Keys;
    assert |c.Keys| == |c|;
  }

  // ---------- the cache object ----------

  /** The heap top: some entry of the heap with the latest access time. */
  lemma {:induction false} NewestExists(c: Contents, heap: set<Checksum>) returns (top: Checksum)
    requires heap <= c.Keys && heap != {}
    ensures top in heap && forall k :: k in heap ==> c[k].time <= c[top].time
    decreases |heap|
  {
    var k :| k in heap;
    if heap == {k} {
      top := k;
    } else {
      assert heap == {k} + (heap - {k});
      top := NewestExists(c, heap - {k});
      if c[top].time < c[k].time {
        top := k;
      }
    }
  }

  ghost predicate HoldsOldest(c: Contents, seen: set<Checksum>, heap: set<Checksum>, n: nat) {
    && heap <= seen <= c.Keys && |heap| == Min(n, |seen|)
    && forall h, s :: h in heap && s in seen && s !in heap ==> c[h].time <= c[s].time
  }

  /** The heap after one more entry has been looked at. */
  lemma HeapStep(c: Contents, seen: set<Checksum>, heap: set<Checksum>, n: nat, it: Checksum, top: Checksum)
    requires HoldsOldest(c, seen, heap, n) && it in c && it !in seen && n > 0
    requires |heap| >= n ==> top in heap && forall k :: k in heap ==> c[k].time <= c[top].time
    ensures HoldsOldest(c, seen + {it},
                        if |heap| < n then heap + {it}
                        else if c[it].time < c[top].time then heap - {top} + {it} else heap, n)
  {
    if |heap| < n {
      SubsetOfSameSize(heap, seen);
    }
  }

  lemma EmptyHeap(c: Contents, n: nat)
    ensures HoldsOldest(c, {}, {}, n)
  {
  }

  lemma HeapWithin(c: Contents, seen: set<Checksum>, heap: set<Checksum>, n: nat)
    requires HoldsOldest(c, seen, heap, n)
    ensures heap <= seen <= c.Keys && |heap| <= n && (n > 0 && |heap| >= n ==> heap != {})
  {
  }

  lemma EvictHeap(c: Contents, heap: set<Checksum>, n: nat)
    requires HoldsOldest(c, c.Keys, heap, n)
    ensures EvictsOldest(c, c - heap, n)
  {
    var r := c - heap;
    assert r.Keys == c.Keys - heap;
    assert |r.Keys| == |r| && |c.Keys| == |c|;
    assert |c.Keys - heap| == |c.Keys| - |heap| by { assert c.Keys == heap + (c.Keys - heap); }
  }

  lemma {:induction false} SubsetOfSameSize(a: set<Checksum>, b: set<Checksum>)
    requires a <= b && |a| == |b|
    ensures a == b
  {
    assert b == a + (b - a);
    assert |b - a| == 0;
  }

  class CdsLruCache {
    var cache: Contents
    const capacity: nat

    constructor (size: nat)
      ensures cache == map[] && capacity == size
    {
      capacity := size;
      cache := map[];
    }

    /** Evicts the n least recently used entries, found with a bounded heap that is ordered newest first. */
    method RemoveItems(n: nat)
      requires n > 0 || cache == map[]
      modifies this
      ensures EvictsOldest(old(cache), cache, n)
    {
      hide HoldsOldest, EvictsOldest;
      var heap, todo: set<Checksum> := {}, cache.Keys;
      EmptyHeap(cache, n);
      assert cache.Keys - todo == {};
      while todo != {}
        invariant todo <= cache.Keys && cache == old(cache)
        invariant HoldsOldest(cache, cache.Keys - todo, heap, n)
        decreases |todo|
      {
        var it :| it in todo;
        ghost var seen := cache.Keys - todo;
        todo := todo - {it};
        assert cache.Keys - todo == seen + {it};
        if |heap| < n {
          HeapStep(cache, seen, heap, n, it, it);
          heap := heap + {it};
        } else {
          HeapWithin(cache, seen, heap, n);
          ghost var newest := NewestExists(cache, heap);
          var top :| top in heap && forall k :: k in heap ==> cache[k].time <= cache[top].time;
          HeapStep(cache, seen, heap, n, it, top);
          if cache[it].time < cache[top].time {
            heap := heap - {top} + {it};
          }
        }
      }
      assert cache.Keys - todo == cache.Keys;
      EvictHeap(cache, heap, n);
      cache := cache - heap;
    }

    /** Adds a block; beyond capacity a tenth of the entries is evicted, which must be at least one. */
    method AddItem(blk: Block, now: nat)
      requires capacity >= 10 || |Put(cache, blk, now)| <= capacity
      modifies this
      ensures Step(capacity, Add(blk), now, old(cache), cache)
    {
      PutSize(cache, blk, now);
      cache := Put(cache, blk, now);
      if |cache| > capacity {
        RemoveItems(capacity / 10);
      }
    }

    method BatchAddItem(blklist: seq<Block>, now: nat)
      modifies this
      ensures Step(capacity, BatchAdd(blklist), now, old(cache), cache)
      ensures |cache| <= capacity
    {
      for i := 0 to |blklist|
        invariant cache == PutAll(old(cache), blklist[..i], now)
      {
        assert blklist[..i + 1][..i] == blklist[..i];
        cache := Put(cache, blklist[i], now);
      }
      assert blklist[..|blklist|] == blklist;
      ghost var full := cache;
      while |cache| > capacity
        invariant if |full| <= capacity then cache == full
                  else cache == full || EvictsOldest(full, cache, |full| - capacity + capacity / 10)
        decreases |cache|
      {
        RemoveItems(|cache| - capacity + capacity / 10);
      }
    }

    /** Looks a block up and, if it is cached, marks it as just used. */
    method SearchItem(blk: Block, now: nat) returns (found: bool)
      modifies this
      ensures found == (blk.cksum in old(cache))
      ensures Step(capacity, Search(blk), now, old(cache), cache)
      ensures cache.Keys == old(cache).Keys
    {
      found := blk.cksum in cache;
      if found {
        cache := Put(cache, blk, now);
      }
    }

    /** Writes the cached blocks out in hash order. */
    method Save() returns (blks: seq<Block>)
      requires Keyed(cache)
      ensures Saved(cache, blks)
    {
      hide Key;
      var todo, all: seq<Block> := cache.Keys, [];
      while todo != {}
        invariant todo <= cache.Keys && |all| == |cache.Keys| - |todo|
        invariant forall k :: k in cache && k !in todo ==> cache[k].blk in all
        invariant forall b :: b in all ==> b.cksum in cache && cache[b.cksum].blk == b
        decreases |todo|
      {
        var k :| k in todo;
        todo := todo - {k};
        all := all + [cache[k].blk];
      }
      blks := Sort(all, (b: Block) => Key(b.cksum));
      assert forall b :: b in blks <==> b in multiset(blks);
      assert forall b :: b in all <==> b in multiset(all);
    }

    /** Adds saved blocks; nothing is evicted here. */
    method Load(blks: seq<Block>, now: nat)
      modifies this
      ensures cache == PutAll(old(cache), blks, now)
    {
      for i := 0 to |blks|
        invariant cache == PutAll(old(cache), blks[..i], now)
      {
        assert blks[..i + 1][..i] == blks[..i];
        cache := Put(cache, blks[i], now);
      }
      assert blks[..|blks|] == blks;
    }
  }
}
