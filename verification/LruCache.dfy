/** The segment cache of lru_cache.cpp: a vector kept in hash order, refilled a segment at a time. */
module LruCache {
  import opened TraceTypes
  import opened StdSort

  /** A cached block and the time of its last access. */
  datatype Entry = Entry(blk: Block, time: nat)

  function NewestFirst(e: Entry): int {
    0 - e.time
  }

  function ByHash(e: Entry): int {
    Key(e.blk.cksum)
  }

  function Stamped(blks: seq<Block>, now: nat): (r: seq<Entry>)
    ensures |r| == |blks| && forall i :: 0 <= i < |blks| ==> r[i] == Entry(blks[i], now)
  {
    seq(|blks|, i requires 0 <= i < |blks| => Entry(blks[i], now))
  }

  /** Both sequences together are c, and no dropped entry is newer than a kept one. */
  ghost predicate KeepsNewest(c: seq<Entry>, kept: seq<Entry>, dropped: seq<Entry>) {
    && multiset(kept) + multiset(dropped) == multiset(c)
    && forall e, k :: e in dropped && k in kept ==> e.time <= k.time
  }

  /** r holds the newest entries of c for which there is room beside the blocks, and the blocks stamped now. */
  ghost predicate Refreshed(c: seq<Entry>, r: seq<Entry>, blks: seq<Block>, now: nat, capacity: nat) {
    exists kept, dropped ::
      && KeepsNewest(c, kept, dropped)
      && multiset(r) == multiset(kept) + multiset(Stamped(blks, now))
      && |kept| == if |c| + |blks| <= capacity then |c| else capacity - |blks|
  }

  predicate Holds(c: seq<Entry>, ck: Checksum) {
    exists i :: 0 <= i < |c| && c[i].blk.cksum == ck
  }

  /** r differs from c in the access time of its first entry with checksum ck, at position i. */
  ghost predicate Renewed(c: seq<Entry>, r: seq<Entry>, ck: Checksum, i: nat, now: nat) {
    && i < |c| && c[i].blk.cksum == ck && r == c[i := Entry(c[i].blk, now)]
    && forall j :: 0 <= j < i ==> c[j].blk.cksum != ck
  }

  function Reversed(s: seq<Entry>): (r: seq<Entry>)
    ensures |r| == |s|
  {
    if s == [] then [] else [s[|s| - 1]] + Reversed(s[..|s| - 1])
  }

  lemma ReversedLast(s: seq<Entry>, t: seq<Entry>, e: Entry)
    requires s != [] && t == s[..|s| - 1] && e == s[|s| - 1]
    ensures Reversed(s) == [e] + Reversed(t)
  {
  }

  lemma {:induction false} ReversedMultiset(s: seq<Entry>)
    ensures multiset(Reversed(s)) == multiset(s)
  {
    if s != [] {
      var t, e := s[..|s| - 1], s[|s| - 1];
      ReversedMultiset(t);
      ReversedLast(s, t, e);
      hide Reversed;
      assert s == t + [e];
    }
  }

  lemma PatchStep(s: seq<Entry>, tail: seq<Entry>, i: nat)
    requires i < |tail| <= |s|
    ensures var n := |s|;
            (s[..n - i] + Reversed(tail[..i]))[n - i - 1 := tail[i]] == s[..n - i - 1] + Reversed(tail[..i + 1])
  {
    assert tail[..i + 1][..i] == tail[..i];
    assert Reversed(tail[..i + 1]) == [tail[i]] + Reversed(tail[..i]);
  }

  lemma KeepsAll(c: seq<Entry>)
    ensures KeepsNewest(c, c, [])
  {
  }

  lemma NewestPrefix(c: seq<Entry>, s: seq<Entry>, n: nat)
    requires Ordered(s, NewestFirst) && multiset(s) == multiset(c) && n <= |s|
    ensures KeepsNewest(c, s[..n], s[n..])
  {
    assert s == s[..n] + s[n..];
  }

  /** Every block of the segment is in the refreshed cache. */
  lemma RefreshedHolds(c: seq<Entry>, r: seq<Entry>, blks: seq<Block>, now: nat, capacity: nat, i: nat)
    requires Refreshed(c, r, blks, now, capacity) && i < |blks|
    ensures Holds(r, blks[i].cksum)
  {
    var e := Stamped(blks, now)[i];
    assert e in multiset(Stamped(blks, now));
    assert e in multiset(r) && e in r;
  }

  /** A hit renews the access time of its entry and changes nothing else. */
  lemma HitRenews(c: seq<Entry>, r: seq<Entry>, ck: Checksum, i: nat, now: nat)
    requires Renewed(c, r, ck, i, now)
    ensures |r| == |c| && r[i].blk == c[i].blk && r[i].blk.cksum == ck && r[i].time == now
    ensures forall j :: 0 <= j < |c| && j != i ==> r[j] == c[j]
  {
  }

  /** Under an increasing clock a block that was just found survives the next segment that leaves room for one. */
  lemma HitSurvives(c: seq<Entry>, r: seq<Entry>, s: seq<Entry>, ck: Checksum, i: nat, now: nat, blks: seq<Block>,
                    later: nat, capacity: nat)
    requires (forall j :: 0 <= j < |c| ==> c[j].time < now) && Renewed(c, r, ck, i, now)
    requires Refreshed(r, s, blks, later, capacity) && |blks| < capacity
    ensures Holds(s, ck)
  {
    var kept, dropped :|
      && KeepsNewest(r, kept, dropped) && multiset(s) == multiset(kept) + multiset(Stamped(blks, later))
      && |kept| == if |r| + |blks| <= capacity then |r| else capacity - |blks|;
    assert r[i] in multiset(r) && kept != [];
    var k := kept[0];
    assert k in kept && k in multiset(kept) && k in multiset(r) && k in r;
    assert k == r[i] || k.time < now;
    assert forall x :: x in multiset(dropped) <==> x in dropped;
    assert r[i] in multiset(kept);
    assert r[i] in multiset(s) && r[i] in s;
  }

  /** When there is room for the segment, nothing is dropped for it. */
  lemma RefreshedAll(c: seq<Entry>, r: seq<Entry>, blks: seq<Block>, now: nat, capacity: nat)
    requires Refreshed(c, r, blks, now, capacity) && |c| + |blks| <= capacity
    ensures |r| == |c| + |blks| && forall ck :: Holds(c, ck) ==> Holds(r, ck)
  {
    var stamped := Stamped(blks, now);
    var kept, dropped :|
      && KeepsNewest(c, kept, dropped) && multiset(r) == multiset(kept) + multiset(stamped) && |kept| == |c|;
    assert |multiset(r)| == |r| && |multiset(kept)| == |kept| && |multiset(stamped)| == |stamped|;
    assert |multiset(c)| == |c| && |multiset(dropped)| == |dropped|;
    assert multiset(kept) == multiset(c);
    forall ck | Holds(c, ck)
      ensures Holds(r, ck)
    {
      var i :| 0 <= i < |c| && c[i].blk.cksum == ck;
      assert c[i] in multiset(c) && c[i] in multiset(r) && c[i] in r;
    }
  }

  /** Every entry of the refreshed cache comes from the segment or was there before. */
  lemma RefreshedFrom(c: seq<Entry>, r: seq<Entry>, blks: seq<Block>, now: nat, capacity: nat, i: nat)
    requires Refreshed(c, r, blks, now, capacity) && i < |r|
    ensures Holds(c, r[i].blk.cksum) || exists k :: 0 <= k < |blks| && blks[k].cksum == r[i].blk.cksum
  {
    var stamped := Stamped(blks, now);
    var kept, dropped :| KeepsNewest(c, kept, dropped) && multiset(r) == multiset(kept) + multiset(stamped);
    assert r[i] in multiset(r);
    if r[i] in multiset(stamped) {
      assert r[i] in stamped;
    } else {
      assert r[i] in multiset(kept) && r[i] in multiset(c) && r[i] in c;
    }
  }

  class LruCache {
    var cache: seq<Entry>
    const capacity: nat

    constructor (size: nat)
      ensures cache == [] && capacity == size
    {
      cache := [];
      capacity := size;
    }

    /** Discards the n oldest entries, or all if there are fewer. */
    method RemoveItems(n: nat)
      modifies this
      ensures |cache| == if n <= |old(cache)| then |old(cache)| - n else 0
      ensures exists dropped :: KeepsNewest(old(cache), cache, dropped)
    {
      var sorted := Sort(cache, NewestFirst);
      cache := sorted;
      var i := 0;
      while i < n && cache != []
        invariant i <= n && i <= |sorted| && cache == sorted[..|sorted| - i]
      {
        cache := cache[..|cache| - 1];
        i := i + 1;
      }
      NewestPrefix(old(cache), sorted, |cache|);
    }

    /** Overwrites the oldest entries of a full cache, from the back. */
    method ReplaceOldest(blks: seq<Block>, now: nat) returns (ghost kept: seq<Entry>, ghost dropped: seq<Entry>)
      requires |blks| <= |cache|
      modifies this
      ensures |cache| == |old(cache)|
      ensures KeepsNewest(old(cache), kept, dropped) && |kept| == |cache| - |blks|
      ensures multiset(cache) == multiset(kept) + multiset(Stamped(blks, now))
    {
      hide Ordered, KeepsNewest, Reversed;
      var sorted := Sort(cache, NewestFirst);
      cache := sorted;
      assert Reversed([]) == [];
      ghost var n, tail := |sorted|, Stamped(blks, now);
      for i := 0 to |blks|
        invariant |cache| == n
        invariant cache == sorted[..n - i] + Reversed(tail[..i])
      {
        PatchStep(sorted, tail, i);
        cache := cache[|cache| - i - 1 := Entry(blks[i], now)];
      }
      assert tail[..|blks|] == tail;
      ReversedMultiset(tail);
      kept, dropped := sorted[..n - |blks|], sorted[n - |blks|..];
      NewestPrefix(old(cache), sorted, n - |blks|);
    }

    /** Adds a segment; only when it is no longer than the capacity does the cache stay within it. */
    method AddItems(blks: seq<Block>, now: nat)
      requires |cache| <= capacity && (|blks| <= capacity || |cache| < capacity)
      modifies this
      ensures Ordered(cache, ByHash)
      ensures |blks| <= capacity ==> Refreshed(old(cache), cache, blks, now, capacity)
      ensures |cache| <= capacity <==> |blks| <= capacity
    {
      hide Ordered, KeepsNewest;
      ghost var kept, dropped;
      if |cache| >= capacity {
        kept, dropped := ReplaceOldest(blks, now);
      } else {
        dropped := [];
        KeepsAll(cache);
        if |blks| + |cache| > capacity {
          RemoveItems(|blks| + |cache| - capacity);
          dropped :| KeepsNewest(old(cache), cache, dropped);
        }
        kept := cache;
        for i := 0 to |blks|
          invariant cache == kept + Stamped(blks, now)[..i]
        {
          cache := cache + [Entry(blks[i], now)];
        }
        assert Stamped(blks, now)[..|blks|] == Stamped(blks, now);
      }
      var sorted := Sort(cache, ByHash);
      assert multiset(sorted) == multiset(kept) + multiset(Stamped(blks, now));
      cache := sorted;
    }

    /** The first position whose hash is not below the wanted one. */
    method LowerBound(ck: Checksum) returns (idx: nat)
      requires Ordered(cache, ByHash)
      ensures idx <= |cache|
      ensures forall i :: 0 <= i < idx ==> Key(cache[i].blk.cksum) < Key(ck)
      ensures forall i :: idx <= i < |cache| ==> Key(ck) <= Key(cache[i].blk.cksum)
    {
      hide Key;
      var lo, hi := 0, |cache|;
      while lo < hi
        invariant 0 <= lo <= hi <= |cache|
        invariant forall i :: 0 <= i < lo ==> ByHash(cache[i]) < Key(ck)
        invariant forall i :: hi <= i < |cache| ==> Key(ck) <= ByHash(cache[i])
      {
        var mid := (lo + hi) / 2;
        ChecksumOrder(cache[mid].blk.cksum, ck);
        if CksumLess(cache[mid].blk.cksum, ck) {
          lo := mid + 1;
        } else {
          hi := mid;
        }
      }
      idx := lo;
    }

    /** Exact membership; a hit renews the access time of the first entry with that hash, and of no other. */
    method SearchItem(blk: Block, now: nat) returns (found: bool)
      requires Ordered(cache, ByHash)
      modifies this
      ensures found == Holds(old(cache), blk.cksum)
      ensures !found ==> cache == old(cache)
      ensures found ==> exists i :: Renewed(old(cache), cache, blk.cksum, i, now)
      ensures Ordered(cache, ByHash)
    {
      hide Key;
      var it := LowerBound(blk.cksum);
      forall i | 0 <= i < |cache|
        ensures cache[i].blk.cksum == blk.cksum <==> Key(cache[i].blk.cksum) == Key(blk.cksum)
      {
        ChecksumOrder(cache[i].blk.cksum, blk.cksum);
      }
      found := it < |cache| && cache[it].blk.cksum == blk.cksum;
      if found {
        cache := cache[it := Entry(cache[it].blk, now)];
        assert Renewed(old(cache), cache, blk.cksum, it, now);
      }
    }
  }
}
