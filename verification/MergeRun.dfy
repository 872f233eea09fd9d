/** Record loading and the main loop of dedup_merge.cpp. */
module MergeRun {
  import opened Bytes
  import opened TraceTypes
  import opened LoserTree
  import opened Merge
  import opened Histogram
  import opened Reordering

  const MERGE_BUFFER_SIZE: nat := 1440 * 1024

  // ---------- the records still to come, as values ----------

  /** All records of a list of streams. */
  ghost function Union(rems: seq<seq<Block>>): multiset<Block> {
    if rems == [] then multiset{} else Union(rems[..|rems| - 1]) + multiset(rems[|rems| - 1])
  }

  lemma Rearrange(a: multiset<Block>, x: multiset<Block>, b: multiset<Block>, y: multiset<Block>, l: multiset<Block>)
    requires a + x == b + y
    ensures a + l + x == b + l + y
  {
    assert a + l + x == a + x + l;
    assert b + l + y == b + y + l;
  }

  lemma {:induction false} UnionUpdate(rems: seq<seq<Block>>, i: nat, r: seq<Block>)
    requires i < |rems|
    ensures Union(rems[i := r]) + multiset(rems[i]) == Union(rems) + multiset(r)
    ensures multiset(rems[i]) <= Union(rems)
  {
    var n := |rems| - 1;
    if i == n {
      assert rems[i := r][..n] == rems[..n];
    } else {
      assert rems[i := r][..n] == rems[..n][i := r];
      UnionUpdate(rems[..n], i, r);
      Rearrange(Union(rems[..n][i := r]), multiset(rems[i]), Union(rems[..n]), multiset(r), multiset(rems[n]));
    }
  }

  lemma {:induction false} UnionEmpty(rems: seq<seq<Block>>)
    requires forall i :: 0 <= i < |rems| ==> rems[i] == []
    ensures Union(rems) == multiset{}
  {
    if rems != [] {
      UnionEmpty(rems[..|rems| - 1]);
    }
  }

  lemma {:induction false} UnionFinds(rems: seq<seq<Block>>, b: Block) returns (i: nat)
    requires b in Union(rems)
    ensures i < |rems| && b in rems[i]
  {
    var n := |rems| - 1;
    if b in rems[n] {
      i := n;
    } else {
      i := UnionFinds(rems[..n], b);
    }
  }

  /** Taking the least record of all keeps the merged sequence in checksum order. */
  ghost predicate Below(fed: seq<Block>, rems: seq<seq<Block>>) {
    fed != [] ==> forall i, j :: 0 <= i < |rems| && 0 <= j < |rems[i]| ==>
                    Key(fed[|fed| - 1].cksum) <= Key(rems[i][j].cksum)
  }

  ghost predicate AllCountable(rems: seq<seq<Block>>) {
    forall i :: 0 <= i < |rems| ==> Countable(rems[i])
  }

  lemma AppendCountable(fed: seq<Block>, x: Block)
    requires Countable(fed) && x.size > 0 && Comparable(x)
    requires fed != [] ==> Key(fed[|fed| - 1].cksum) <= Key(x.cksum)
    ensures Countable(fed + [x])
  {
    hide Key, Comparable;
    var more := fed + [x];
    assert forall i :: 0 <= i < |fed| ==> more[i] == fed[i] && Key(more[i].cksum) <= Key(x.cksum);
  }

  lemma TailCountable(s: seq<Block>)
    requires Countable(s) && s != []
    ensures Countable(s[1..]) && s[0].size > 0 && Comparable(s[0])
    ensures forall j :: 0 <= j < |s| ==> Key(s[0].cksum) <= Key(s[j].cksum)
  {
    hide Key, Comparable;
  }

  lemma TakeLeast(fed: seq<Block>, rems: seq<seq<Block>>, k: nat)
    requires Countable(fed) && AllCountable(rems) && Below(fed, rems) && k < |rems| && rems[k] != []
    requires forall i :: 0 <= i < |rems| && rems[i] != [] ==> Key(rems[k][0].cksum) <= Key(rems[i][0].cksum)
    ensures var x, rest := rems[k][0], rems[k := rems[k][1..]];
            && Countable(fed + [x]) && AllCountable(rest) && Below(fed + [x], rest)
            && multiset(fed + [x]) + Union(rest) == multiset(fed) + Union(rems)
            && |Union(rest)| < |Union(rems)|
  {
    hide Key, Comparable, Union, Countable;
    var x := rems[k][0];
    var rest: seq<seq<Block>> := rems[k := rems[k][1..]];
    TakeOne(fed, rems, k);
    TailCountable(rems[k]);
    AppendCountable(fed, x);
    forall i, j | 0 <= i < |rest| && 0 <= j < |rest[i]|
      ensures Key(x.cksum) <= Key(rest[i][j].cksum)
    {
      TailCountable(rems[i]);
    }
  }

  lemma TakeOne(fed: seq<Block>, rems: seq<seq<Block>>, k: nat)
    requires k < |rems| && rems[k] != []
    ensures var x, rest := rems[k][0], rems[k := rems[k][1..]];
            && multiset(fed + [x]) + Union(rest) == multiset(fed) + Union(rems)
            && |Union(rest)| < |Union(rems)|
  {
    hide Union;
    var x, tail := rems[k][0], rems[k][1..];
    var rest := rems[k := tail];
    UnionUpdate(rems, k, tail);
    assert rems[k] == [x] + tail;
    assert multiset(rems[k]) == multiset{x} + multiset(tail);
    var a, b, m := Union(rest), Union(rems), multiset(tail);
    assert a + multiset{x} + m == b + m;
    assert (a + multiset{x}) == (a + multiset{x} + m) - m;
    assert b == (b + m) - m;
    assert multiset(fed + [x]) == multiset(fed) + multiset{x};
    assert multiset(fed) + multiset{x} + a == multiset(fed) + (a + multiset{x});
  }

  lemma WholeRecord(pos: nat, size: nat)
    requires pos < size && pos % RECORD_SIZE == 0 && size % RECORD_SIZE == 0
    ensures pos + RECORD_SIZE <= size
    ensures (pos + RECORD_SIZE) % RECORD_SIZE == 0
  {
  }

  lemma FirstRecord(buf: seq<u8>, pos: nat, unread: seq<u8>)
    requires pos + RECORD_SIZE <= |buf|
    ensures var s := buf[pos..] + unread;
            buf[pos..pos + RECORD_SIZE] == s[..RECORD_SIZE] && buf[pos + RECORD_SIZE..] + unread == s[RECORD_SIZE..]
  {
  }

  /** A buffer holds whole records, and only a full one can have more behind it. */
  predicate Buffered(buf: seq<u8>, pos: nat, size: nat, unread: seq<u8>) {
    && |buf| == size <= MERGE_BUFFER_SIZE
    && pos % RECORD_SIZE == 0 && size % RECORD_SIZE == 0 && |unread| % RECORD_SIZE == 0
    && (size != MERGE_BUFFER_SIZE ==> unread == [])
  }

  /** The bytes of a stream that are not yet decoded. */
  function Undecoded(buf: seq<u8>, pos: nat, size: nat, unread: seq<u8>): (s: seq<u8>)
    requires Buffered(buf, pos, size, unread)
    ensures |s| % RECORD_SIZE == 0
  {
    (if pos < size then buf[pos..] else []) + unread
  }

  class Merger {
    const n: nat
    const t: Tournament
    var bufs: seq<seq<u8>>
    var bufPos: seq<nat>
    var bufSize: seq<nat>
    var unread: seq<seq<u8>>

    constructor (files: seq<seq<u8>>)
      requires files != []
      ensures Sizes() && n == |files| && unread == files && fresh(t) && fresh(t.tree) && fresh(t.bls)
      ensures t.Shape() && t.HeadsComparable()
    {
      n := |files|;
      t := new Tournament(|files|, Block(seq(CKSUM_LEN, _ => 0), 0, 0, 0));
      bufs, bufPos, bufSize := seq(|files|, _ => []), seq(|files|, _ => 0), seq(|files|, _ => 0);
      unread := files;
    }

    ghost predicate Sizes()
      reads this
    {
      && n == t.n == t.bls.Length
      && |bufs| == n && |bufPos| == n && |bufSize| == n && |unread| == n
    }

    ghost predicate LoaderOk(i: nat)
      requires Sizes() && i < n
      reads this
    {
      Buffered(bufs[i], bufPos[i], bufSize[i], unread[i])
    }

    ghost function Pending(i: nat): seq<u8>
      requires Sizes() && i < n && LoaderOk(i)
      reads this
    {
      Undecoded(bufs[i], bufPos[i], bufSize[i], unread[i])
    }

    method LoadBuffer(which: nat) returns (count: nat)
      requires Sizes() && which < n && |unread[which]| % RECORD_SIZE == 0
      modifies `bufs, `unread
      ensures Sizes()
      ensures count <= MERGE_BUFFER_SIZE && count % RECORD_SIZE == 0
      ensures |bufs[which]| == count && bufs[which] + unread[which] == old(unread[which])
      ensures count != MERGE_BUFFER_SIZE ==> unread[which] == []
      ensures bufs == old(bufs)[which := bufs[which]] && unread == old(unread)[which := unread[which]]
    {
      var file := unread[which];
      count := if |file| < MERGE_BUFFER_SIZE then |file| else MERGE_BUFFER_SIZE;
      bufs := bufs[which := file[..count]];
      unread := unread[which := file[count..]];
    }

    /** Only the fields of one stream have changed since the state given by the arguments. */
    ghost predicate OnlyChanged(which: nat, b: seq<seq<u8>>, p: seq<nat>, s: seq<nat>, u: seq<seq<u8>>)
      requires Sizes() && which < n
      reads this
    {
      && |b| == |p| == |s| == |u| == n
      && bufs == b[which := bufs[which]] && bufPos == p[which := bufPos[which]]
      && bufSize == s[which := bufSize[which]] && unread == u[which := unread[which]]
    }

    /** Replaces the head of a stream by its next record, or by a zero-size block once there is none. */
    method LoadBlock(which: nat)
      requires Sizes() && which < n && LoaderOk(which)
      modifies `bufs, `bufPos, `bufSize, `unread, t.bls
      ensures Sizes() && LoaderOk(which)
      ensures OnlyChanged(which, old(bufs), old(bufPos), old(bufSize), old(unread))
      ensures forall i :: 0 <= i < n && i != which ==> t.bls[i] == old(t.bls[i])
      ensures old(Pending(which)) == [] ==> t.bls[which].size == 0 && Pending(which) == []
      ensures old(Pending(which)) != [] ==>
                && t.bls[which] == DecodeBlock(old(Pending(which))[..RECORD_SIZE])
                && Pending(which) == old(Pending(which))[RECORD_SIZE..]
    {
      hide DecodeBlock;
      if bufPos[which] >= bufSize[which] {
        if bufSize[which] != MERGE_BUFFER_SIZE {
          t.bls[which] := t.bls[which].(size := 0);
          return;
        }
        ghost var file := unread[which];
        var count := LoadBuffer(which);
        assert old(Pending(which)) == file == bufs[which] + unread[which];
        bufSize := bufSize[which := count];
        if count == 0 {
          t.bls[which] := t.bls[which].(size := 0);
          return;
        }
        bufPos := bufPos[which := 0];
      }
      var pos := bufPos[which];
      WholeRecord(pos, bufSize[which]);
      var record := bufs[which][pos..pos + RECORD_SIZE];
      assert old(Pending(which)) == bufs[which][pos..] + unread[which];
      FirstRecord(bufs[which], pos, unread[which]);
      t.bls[which] := DecodeBlock(record);
      bufPos := bufPos[which := pos + RECORD_SIZE];
    }

    /** The records of stream i that have not been merged: its head, unless exhausted, and what is pending. */
    ghost function Rem(i: nat): seq<Block>
      requires Sizes() && i < n && LoaderOk(i)
      reads this, t.bls
    {
      if t.bls[i].size == 0 then [] else [t.bls[i]] + DecodeAll(Pending(i))
    }

    /** An exhausted stream has nothing pending. */
    ghost predicate HeadOk(i: nat)
      requires Sizes() && i < n && LoaderOk(i)
      reads this, t.bls
    {
      t.bls[i].size == 0 ==> Pending(i) == []
    }

    /** Loading the next record of a stream leaves what was pending behind its head. */
    method Advance(which: nat)
      requires Sizes() && which < n && LoaderOk(which) && Countable(DecodeAll(Pending(which)))
      modifies `bufs, `bufPos, `bufSize, `unread, t.bls
      ensures Sizes() && LoaderOk(which) && HeadOk(which) && Comparable(t.bls[which])
      ensures OnlyChanged(which, old(bufs), old(bufPos), old(bufSize), old(unread))
      ensures forall i :: 0 <= i < n && i != which ==> t.bls[i] == old(t.bls[i])
      ensures Rem(which) == old(DecodeAll(Pending(which)))
      ensures forall i :: 0 <= i < n && i != which && old(LoaderOk(i)) ==>
                LoaderOk(i) && Rem(i) == old(Rem(i)) && HeadOk(i) == old(HeadOk(i))
    {
      hide Buffered, DecodeBlock, Undecoded, SortedByHash;
      ghost var s := Pending(which);
      LoadBlock(which);
      if s != [] {
        assert DecodeAll(s)[0] == DecodeBlock(s[..RECORD_SIZE]);
      }
    }

    ghost predicate Ready()
      reads this, t.bls
    {
      Sizes() && forall i :: 0 <= i < n ==> LoaderOk(i) && HeadOk(i)
    }

    ghost function Rems(): (r: seq<seq<Block>>)
      requires Ready()
      reads this, t.bls
      ensures |r| == n && forall i :: 0 <= i < n ==> r[i] == Rem(i)
    {
      seq(n, i requires Ready() && 0 <= i < n reads this, t.bls => Rem(i))
    }

    /** Loads the first buffer and the first block of every stream. */
    method Start(ghost files: seq<seq<u8>>)
      requires Sizes() && unread == files && t.Shape() && t.HeadsComparable()
      requires forall i :: 0 <= i < n ==> |files[i]| % RECORD_SIZE == 0 && Countable(DecodeAll(files[i]))
      modifies this, t.bls
      ensures Ready() && t.HeadsComparable()
      ensures forall i :: 0 <= i < n ==> Rem(i) == DecodeAll(files[i])
    {
      hide Buffered, Undecoded, Countable, DecodeAll;
      for i := 0 to n
        invariant Sizes() && t.HeadsComparable()
        invariant forall j :: 0 <= j < i ==> LoaderOk(j) && HeadOk(j) && Rem(j) == DecodeAll(files[j])
        invariant forall j :: i <= j < n ==> unread[j] == files[j]
      {
        FirstLoad(i, files[i]);
      }
    }

    method FirstLoad(which: nat, ghost file: seq<u8>)
      requires Sizes() && which < n && unread[which] == file
      requires |file| % RECORD_SIZE == 0 && Countable(DecodeAll(file))
      modifies this, t.bls
      ensures Sizes() && LoaderOk(which) && HeadOk(which) && Comparable(t.bls[which])
      ensures Rem(which) == DecodeAll(file)
      ensures OnlyChanged(which, old(bufs), old(bufPos), old(bufSize), old(unread))
      ensures forall i :: 0 <= i < n && i != which ==> t.bls[i] == old(t.bls[i])
      ensures forall i :: 0 <= i < n && i != which && old(LoaderOk(i)) ==>
                LoaderOk(i) && Rem(i) == old(Rem(i)) && HeadOk(i) == old(HeadOk(i))
    {
      hide Buffered, Undecoded, Countable, DecodeAll;
      var count := LoadBuffer(which);
      bufSize := bufSize[which := count];
      bufPos := bufPos[which := 0];
      FirstBuffer(bufs[which], count, unread[which]);
      assert forall i :: 0 <= i < n && i != which && old(LoaderOk(i)) ==>
                LoaderOk(i) && Rem(i) == old(Rem(i)) && HeadOk(i) == old(HeadOk(i));
      Advance(which);
    }

    /** The overall winner is a stream whose head comes first in checksum order, or all are exhausted. */
    lemma WinnerIsFirst()
      requires Ready() && t.Valid()
      ensures t.tree.Length > 0 && t.tree[0] < n
      ensures t.bls[t.tree[0]].size == 0 ==> forall i :: 0 <= i < n ==> Rems()[i] == []
      ensures t.bls[t.tree[0]].size > 0 ==>
                && Rems()[t.tree[0]] != [] && Rems()[t.tree[0]][0] == t.bls[t.tree[0]]
                && forall i :: 0 <= i < n && Rems()[i] != [] ==>
                     Key(Rems()[t.tree[0]][0].cksum) <= Key(Rems()[i][0].cksum)
    {
      hide Key, IsLoserTree, Buffered, Undecoded, DecodeAll;
      WinnerIsMinimum(t.tree[..], t.w, t.Ranks());
      var k := t.tree[0];
      forall i | 0 <= i < n
        ensures Rank(t.bls[k]) <= Rank(t.bls[i])
      {
        assert t.Ranks()[k] <= t.Ranks()[i];
      }
      forall i | 0 <= i < n
        ensures Key(t.bls[i].cksum) < INFINITY
      {
        ChecksumOrder(t.bls[i].cksum, t.bls[i].cksum);
      }
    }

    /** Replaces the winner by its successor in the same stream and replays its matches. */
    method Step()
      requires Ready() && t.Valid() && t.tree[0] < n
      requires t.bls[t.tree[0]].size > 0 && Countable(Rem(t.tree[0]))
      modifies this, t, t.tree, t.bls
      ensures Ready() && t.Valid()
      ensures Rems() == old(Rems()[t.tree[0] := Rem(t.tree[0])[1..]])
    {
      hide IsLoserTree, Leaves, Buffered, Undecoded, Rank, DecodeAll, Countable, Comparable, SortedByHash;
      var k := t.tree[0];
      ghost var r0, rems, rest := t.Ranks(), Rems(), Rem(k)[1..];
      TailCountable(Rem(k));
      assert rest == DecodeAll(Pending(k));
      Advance(k);
      assert Rem(k) == rest && forall i :: 0 <= i < n && i != k ==> Rem(i) == rems[i];
      assert Rems() == rems[k := rest];
      t.AdjustTree(k, r0);
    }
  }

  lemma FirstBuffer(buf: seq<u8>, count: nat, unread: seq<u8>)
    requires |buf| == count <= MERGE_BUFFER_SIZE && count % RECORD_SIZE == 0
    requires |unread| % RECORD_SIZE == 0 && (count != MERGE_BUFFER_SIZE ==> unread == [])
    ensures Buffered(buf, 0, count, unread) && Undecoded(buf, 0, count, unread) == buf + unread
  {
  }

  ghost function AllRecords(files: seq<seq<u8>>): seq<seq<Block>>
    requires forall i :: 0 <= i < |files| ==> |files[i]| % RECORD_SIZE == 0
  {
    seq(|files|, i requires 0 <= i < |files| => DecodeAll(files[i]))
  }

  /** In the middle of the merge: some records have been counted, the rest is still in the streams. */
  ghost predicate Merging(m: Merger, c: Counter, all: seq<seq<Block>>)
    reads m, m.t, m.t.tree, m.t.bls, c
  {
    && m.Ready() && m.t.Valid() && c.Counted(c.counted)
    && AllCountable(m.Rems()) && Below(c.counted, m.Rems()) && Countable(c.counted)
    && multiset(c.counted) + Union(m.Rems()) == Union(all)
  }

  /**
   * What has been handed to Count at the end: all records of all streams, with their multiplicity and in
   * checksum order, and then exactly one zero-size block.
   */
  ghost predicate FedInOrder(counted: seq<Block>, all: seq<seq<Block>>) {
    && counted != [] && counted[|counted| - 1].size == 0
    && Countable(counted[..|counted| - 1]) && multiset(counted[..|counted| - 1]) == Union(all)
  }

  /** One turn of the merge loop: counts the first head and, unless it is the end marker, moves on. */
  method Turn(m: Merger, c: Counter, ghost all: seq<seq<Block>>) returns (done: bool)
    requires Merging(m, c, all)
    modifies m, m.t, m.t.tree, m.t.bls, c
    ensures |c.counted| == |old(c.counted)| + 1 && c.counted[..|old(c.counted)|] == old(c.counted)
    ensures done ==> FedInOrder(c.counted, all) && c.Finished(old(c.counted))
    ensures !done ==> Merging(m, c, all) && LeftOver(m, c, all) < old(LeftOver(m, c, all))
  {
    hide Union, Countable, AllCountable, Below, IsLoserTree, DecodeAll, Rank, Counter.Counted, Counter.Finished;
    m.WinnerIsFirst();
    var head := m.t.bls[m.t.tree[0]];
    ghost var k, rems, fed := m.t.tree[0], m.Rems(), c.counted;
    EachCountable(rems);
    if head.size > 0 {
      TakeLeast(fed, rems, k);
    }
    c.Count(head);
    assert c.counted[..|fed|] == fed;
    done := head.size == 0;
    if done {
      UnionEmpty(rems);
      return;
    }
    m.Step();
  }

  /** Opens the streams, loads their first blocks and sets up the tree. */
  method Setup(files: seq<seq<u8>>, c: Counter) returns (m: Merger)
    requires files != [] && forall i :: 0 <= i < |files| ==> |files[i]| % RECORD_SIZE == 0
    requires AllCountable(AllRecords(files)) && c.Counted([])
    ensures fresh(m) && fresh(m.t) && fresh(m.t.tree) && fresh(m.t.bls)
    ensures Merging(m, c, AllRecords(files))
  {
    hide Union, Countable, AllCountable, Below, IsLoserTree, DecodeAll;
    ghost var all := AllRecords(files);
    m := new Merger(files);
    EachCountable(all);
    assert forall i :: 0 <= i < m.n ==> Countable(DecodeAll(files[i])) by {
      assert forall i :: 0 <= i < m.n ==> all[i] == DecodeAll(files[i]);
    }
    m.Start(files);
    NothingYet(all);
    var first := m.t.InitTree();
    assert m.Rems() == all;
  }

  /** What the program prints and writes at the end. */
  datatype Report = Report(blkCount: map<nat, int>, sizeCount: map<nat, int>, dedupCount: map<nat, int>,
                           totalSize: nat, dedupSize: nat, totalBlocks: nat, uniBlocks: nat, cds: seq<Block>)

  /** The report is exact for the records: histograms by number of occurrences, totals, and the CDS. */
  ghost predicate Exact(r: Report, records: seq<Block>, writeCds: bool, threshold: nat) {
    && Tallied(r.blkCount, records) && r.totalSize == SumSizes(records)
    && r.totalBlocks == |records| + 1 && r.uniBlocks == |Distinct(records)| + 1
    && Scaled(r.sizeCount, r.dedupCount)
    && (SizesAgree(records) ==> Values(r.sizeCount) == r.totalSize && Values(r.dedupCount) == r.dedupSize)
    && SizesAllBut(r.dedupCount, r.dedupSize, records, {})
    && (if writeCds then Written(r.cds, records, {}, threshold) else r.cds == [])
  }

  lemma ExactByMultiset(r: Report, a: seq<Block>, b: seq<Block>, writeCds: bool, threshold: nat)
    requires Exact(r, a, writeCds, threshold) && multiset(a) == multiset(b)
    ensures Exact(r, b, writeCds, threshold)
  {
    hide Tallied, SumSizes, Distinct, SizesAgree, Written, SumBy, Get, SizesAllBut;
    TalliedByMultiset(r.blkCount, a, b);
    SumSizesByMultiset(a, b);
    DistinctByMultiset(a, b);
    SameLength(a, b);
    SizesAllButByMultiset(r.dedupCount, r.dedupSize, a, b);
    if SizesAgree(b) {
      SizesAgreeByMultiset(b, a);
    }
    if writeCds {
      WrittenByMultiset(r.cds, a, b, threshold);
    }
  }

  /**
   * The merge loop: all records are counted in checksum order, then one end marker, and the report is exact.
   * The -1 left by an empty merge stands for 2^64 - 1, since the program's counters are unsigned.
   */
  method RunMerge(files: seq<seq<u8>>, c: Counter) returns (r: Report)
    requires files != [] && forall i :: 0 <= i < |files| ==> |files[i]| % RECORD_SIZE == 0
    requires AllCountable(AllRecords(files)) && c.Counted([])
    modifies c
    ensures FedInOrder(c.counted, AllRecords(files))
    ensures var fed := c.counted[..|c.counted| - 1];
            if fed == [] then r.blkCount == map[1 := -1] else Exact(r, fed, c.writeCds, c.threshold)
  {
    hide Written, Union, Countable, Merging, FedInOrder, DecodeAll, Get, SumBy, SumSizes, Tallied, SizesAgree,
      CountsAllBut, SizesAllBut;
    ghost var all, fed := AllRecords(files), c.counted;
    var m := Setup(files, c);
    var done := false;
    while !done
      invariant fresh(m) && fresh(m.t) && fresh(m.t.tree) && fresh(m.t.bls)
      invariant !done ==> Merging(m, c, all)
      invariant done ==> FedInOrder(c.counted, all) && |c.counted| == |fed| + 1 && c.counted[..|fed|] == fed
      invariant done ==> c.Finished(fed)
      decreases !done, if !done then LeftOver(m, c, all) else 0
    {
      fed := c.counted;
      done := Turn(m, c, all);
    }
    CorrectedIfAny(c.blkCount, fed);
    c.Correct();
    r := Report(c.blkCount, c.sizeCount, c.dedupCount, c.totalSize, c.dedupSize, c.totalBlocks, c.uniBlocks, c.os);
  }

  /** The whole program: its report is exact for the records of all files, unless there is none. */
  method MergeAll(files: seq<seq<u8>>, writeCds: bool, threshold: nat) returns (r: Report)
    requires files != [] && forall i :: 0 <= i < |files| ==> |files[i]| % RECORD_SIZE == 0
    requires AllCountable(AllRecords(files))
    ensures Exact(r, Flatten(AllRecords(files)), writeCds, threshold) <==> Flatten(AllRecords(files)) != []
    ensures Flatten(AllRecords(files)) == [] ==> r.blkCount == map[1 := -1]
  {
    hide Tallied, Written, SizesAgree, Distinct, SumSizes, SumBy, AllCountable, Countable, SizesAllBut, Counter.Counted;
    var c := new Counter(writeCds, threshold);
    r := RunMerge(files, c);
    ghost var fed, all := c.counted[..|c.counted| - 1], Flatten(AllRecords(files));
    UnionIsFlatten(AllRecords(files));
    SameLength(fed, all);
    if fed != [] {
      ExactByMultiset(r, fed, all, writeCds, threshold);
    } else {
      NotTallied(r.blkCount);
    }
  }

  /** With a threshold of at most one, and only then, the CDS written holds an empty block. */
  lemma EmptyBlockWritten(r: Report, records: seq<Block>, threshold: nat)
    requires Exact(r, records, true, threshold)
    ensures (forall i :: 0 <= i < |r.cds| ==> r.cds[i].size > 0) <==> threshold > 1
  {
    hide Key, Occurrences, Distinct, Tallied, Lists, SizesAllBut, SumBy, SumSizes;
  }

  lemma NotTallied(m: map<nat, int>)
    requires m == map[1 := -1]
    ensures !Tallied(m, [])
  {
    assert Get(m, 1) == -1;
  }

  lemma {:induction false} UnionIsFlatten(rems: seq<seq<Block>>)
    ensures Union(rems) == multiset(Flatten(rems))
  {
    if rems != [] {
      UnionIsFlatten(rems[..|rems| - 1]);
    }
  }

  ghost function LeftOver(m: Merger, c: Counter, all: seq<seq<Block>>): nat
    requires Merging(m, c, all)
    reads m, m.t, m.t.tree, m.t.bls, c
  {
    |Union(m.Rems())|
  }

  lemma EachCountable(rems: seq<seq<Block>>)
    requires AllCountable(rems)
    ensures forall i :: 0 <= i < |rems| ==> Countable(rems[i])
  {
  }

  lemma NothingYet(rems: seq<seq<Block>>)
    ensures Below([], rems) && Countable([])
  {
  }

  lemma CorrectedIfAny(m: map<nat, int>, fed: seq<Block>)
    requires if fed == [] then m == map[] else CountsAllBut(m, fed, {}) && Weighted(m) == |fed| + 1
    ensures fed != [] ==> Tallied(Added(m, 1, -1), fed)
    ensures fed == [] ==> Added(m, 1, -1) == map[1 := -1]
  {
    hide CountsAllBut, SumBy;
    if fed != [] {
      CorrectedIsTallied(m, fed);
    }
  }
}
