/** From files to the duplication report: dedup_main.cpp scans, dedup_sort.cpp sorts and dedup_merge.cpp merges. */
module Pipeline {
  import opened Bytes
  import opened Chunking
  import opened Boundaries
  import opened TraceTypes
  import opened StdSort
  import opened Scanner
  import opened Driver
  import opened Reconstruction
  import opened Histogram
  import opened Merge
  import opened Reordering
  import opened MergeRun

  // ---------- the log of one file ----------

  /** The blocks that the driver logs for a file. */
  function Log(hash: Hash, fileId: u32, t: Thresholds, boundary: nat, file: seq<u8>): seq<Block>
    requires Sound(t) && |file| < TWO_64
  {
    ScanFits(t, file, boundary, SignalsEof(file));
    Entries(hash, fileId, file, Scan(t, file, boundary, SignalsEof(file)))
  }

  lemma {:induction false} TilesSum(hash: Hash, fileId: u32, data: seq<u8>, cs: seq<Chunk>, hi: nat)
    requires AllFit(data, cs) && Tiles(cs, 0, hi)
    ensures SumSizes(Entries(hash, fileId, data, cs)) == hi
  {
    hide Content;
    if cs != [] {
      var u, c := cs[..|cs| - 1], cs[|cs| - 1];
      TilesSplitLast(cs, 0, hi);
      TilesSum(hash, fileId, data, u, c.offset);
      var es := Entries(hash, fileId, data, cs);
      assert es == Entries(hash, fileId, data, u) + [es[|cs| - 1]];
      hide SumSizes;
      SumSizesAppend(Entries(hash, fileId, data, u), es[|cs| - 1]);
    }
  }

  /** The sizes logged for a file add up to its length, less the chunk left open if its end was not signalled. */
  lemma LoggedBytes(hash: Hash, fileId: u32, t: Thresholds, boundary: nat, file: seq<u8>)
    requires Sound(t) && |file| < TWO_64
    ensures SumSizes(Log(hash, fileId, t, boundary, file)) ==
            if SignalsEof(file) then |file| else ScanOpen(t, file, boundary)
  {
    hide Scan, ScanOpen, Entries, SumSizes, Tiles;
    var cs := Scan(t, file, boundary, SignalsEof(file));
    ScanFits(t, file, boundary, SignalsEof(file));
    ScanTiles(t, file, boundary, SignalsEof(file));
    TilesSum(hash, fileId, file, cs, if SignalsEof(file) then |file| else ScanOpen(t, file, boundary));
  }

  /** Every block logged may go into a merge: it is neither empty nor too large to be compared. */
  lemma LogSizes(hash: Hash, fileId: u32, t: Thresholds, boundary: nat, file: seq<u8>, i: nat)
    requires Sound(t) && |file| < TWO_64 && i < |Log(hash, fileId, t, boundary, file)|
    ensures 0 < Log(hash, fileId, t, boundary, file)[i].size && Comparable(Log(hash, fileId, t, boundary, file)[i])
  {
    hide Scan, ScanOpen, Content;
    var eof := SignalsEof(file);
    var cs := Scan(t, file, boundary, eof);
    ScanFits(t, file, boundary, eof);
    ScanTiles(t, file, boundary, eof);
    TilesInRange(cs, 0, if eof then |file| else ScanOpen(t, file, boundary), i);
    ScanBlocksBounded(t, file, boundary, eof, i);
  }

  /** A log sorted by hash is a valid input of the merge, and is read back as it was written. */
  lemma SortedLogCountable(hash: Hash, fileId: u32, t: Thresholds, boundary: nat, file: seq<u8>, sorted: seq<Block>)
    requires Sound(t) && |file| < TWO_64 && SortedByHash(sorted)
    requires multiset(sorted) == multiset(Log(hash, fileId, t, boundary, file))
    ensures Countable(sorted) && DecodeAll(EncodeAll(sorted)) == sorted
  {
    hide Log, SortedByHash, Comparable, EncodeAll, DecodeAll;
    DecodeEncodeAll(sorted);
    var log := Log(hash, fileId, t, boundary, file);
    forall i | 0 <= i < |sorted|
      ensures 0 < sorted[i].size && Comparable(sorted[i])
    {
      assert sorted[i] in multiset(sorted) && sorted[i] in log;
      var k :| 0 <= k < |log| && log[k] == sorted[i];
      LogSizes(hash, fileId, t, boundary, file, k);
    }
  }

  // ---------- all files ----------

  ghost function Logs(hash: Hash, fileId: u32, t: Thresholds, boundary: nat, files: seq<seq<u8>>): (r: seq<seq<Block>>)
    requires Sound(t) && forall i :: 0 <= i < |files| ==> |files[i]| < TWO_64
    ensures |r| == |files|
  {
    seq(|files|, i requires 0 <= i < |files| => Log(hash, fileId, t, boundary, files[i]))
  }

  function TotalBytes(files: seq<seq<u8>>): nat {
    if files == [] then 0 else TotalBytes(files[..|files| - 1]) + |files[|files| - 1]|
  }

  /** The end of the file is signalled, or no chunk is open there. */
  predicate Covered(t: Thresholds, boundary: nat, file: seq<u8>)
    requires Sound(t)
  {
    SignalsEof(file) || ScanOpen(t, file, boundary) == |file|
  }

  /** The logs account for all bytes if and only if each file is covered. */
  lemma {:induction false} AllLoggedBytes(hash: Hash, fileId: u32, t: Thresholds, boundary: nat, files: seq<seq<u8>>)
    requires Sound(t) && forall i :: 0 <= i < |files| ==> |files[i]| < TWO_64
    ensures SumSizes(Flatten(Logs(hash, fileId, t, boundary, files))) <= TotalBytes(files)
    ensures SumSizes(Flatten(Logs(hash, fileId, t, boundary, files))) == TotalBytes(files) <==>
            forall i :: 0 <= i < |files| ==> Covered(t, boundary, files[i])
  {
    hide Log, ScanOpen, SignalsEof, SumSizes;
    if files == [] {
      assert SumSizes([]) == 0 by { NoSizes(); }
    } else {
      var front, last := files[..|files| - 1], files[|files| - 1];
      AllLoggedBytes(hash, fileId, t, boundary, front);
      LoggedBytes(hash, fileId, t, boundary, last);
      var logs := Logs(hash, fileId, t, boundary, files);
      assert logs[..|logs| - 1] == Logs(hash, fileId, t, boundary, front);
      SumSizesConcat(Flatten(logs[..|logs| - 1]), logs[|logs| - 1]);
      assert forall i :: 0 <= i < |front| ==> front[i] == files[i];
    }
  }

  lemma NoSizes()
    ensures SumSizes([]) == 0
  {
  }

  /** Part by part the same records. */
  ghost predicate Permuted(a: seq<seq<Block>>, b: seq<seq<Block>>) {
    |a| == |b| && forall i :: 0 <= i < |a| ==> multiset(a[i]) == multiset(b[i])
  }

  lemma {:induction false} FlattenPermuted(a: seq<seq<Block>>, b: seq<seq<Block>>)
    requires Permuted(a, b)
    ensures multiset(Flatten(a)) == multiset(Flatten(b))
  {
    if a != [] {
      FlattenPermuted(a[..|a| - 1], b[..|b| - 1]);
    }
  }

  /** The thresholds of a scanner, for the block sizes that it takes. */
  function Limits(kb: nat): (t: Thresholds)
    requires 1 <= kb <= 2048
    ensures Sound(t)
  {
    ThresholdsForSound(kb);
    ThresholdsFor(kb)
  }

  /** Scans one file and returns its log, sorted by hash, in the format of the log files. */
  method ScanAndSort(hash: Hash, kb: nat, boundary: nat, fileId: u32, file: seq<u8>)
      returns (sorted: seq<Block>)
    requires 1 <= kb <= 2048 && |file| < TWO_64
    ensures SortedByHash(sorted)
    ensures multiset(sorted) == multiset(Log(hash, fileId, Limits(kb), boundary, file))
  {
    hide Key, Scan, SignalsEof, Entries;
    var sc := new Scanner(kb, boundary, hash, fileId, false);
    var buffer1, buffer2 := new u8[READ_BUFFER_SIZE](_ => 0), new u8[READ_BUFFER_SIZE](_ => 0);
    var cksum := ScanFile(sc, buffer1, buffer2, file);
    sorted := Sort(sc.ofs, (b: Block) => Key(b.cksum));
  }

  /**
   * The whole pipeline. The report is exact for the blocks of all files, if there are any; and the total size
   * in it is the number of bytes scanned if and only if every file is covered by its log.
   */
  method ScanAndMerge(hash: Hash, kb: nat, boundary: nat, fileId: u32, files: seq<seq<u8>>) returns (r: Report)
    requires 1 <= kb <= 2048
    requires files != [] && forall i :: 0 <= i < |files| ==> |files[i]| < TWO_64
    ensures var logs := Logs(hash, fileId, Limits(kb), boundary, files);
            Exact(r, Flatten(logs), false, 0) <==> Flatten(logs) != []
    ensures Flatten(Logs(hash, fileId, Limits(kb), boundary, files)) != [] ==>
              (r.totalSize == TotalBytes(files) <==>
               forall i :: 0 <= i < |files| ==> Covered(Limits(kb), boundary, files[i]))
  {
    hide Log, Covered, Key, SumSizes, Tallied, SizesAllBut, SizesAgree, Distinct, Written, Exact, EncodeAll, DecodeAll;
    var t := Limits(kb);
    ghost var logs := Logs(hash, fileId, t, boundary, files);
    var encoded: seq<seq<u8>> := [];
    ghost var sorted: seq<seq<Block>> := [];
    for i := 0 to |files|
      invariant |encoded| == |sorted| == i
      invariant forall k :: 0 <= k < i ==>
                  encoded[k] == EncodeAll(sorted[k]) && Countable(sorted[k]) && DecodeAll(encoded[k]) == sorted[k]
      invariant forall k :: 0 <= k < i ==> multiset(sorted[k]) == multiset(logs[k])
    {
      var one := ScanAndSort(hash, kb, boundary, fileId, files[i]);
      SortedLogCountable(hash, fileId, t, boundary, files[i], one);
      encoded, sorted := encoded + [EncodeAll(one)], sorted + [one];
    }
    assert AllRecords(encoded) == sorted;
    r := MergeAll(encoded, false, 0);
    FlattenPermuted(sorted, logs);
    SameRecords(r, Flatten(sorted), Flatten(logs));
    AllLoggedBytes(hash, fileId, t, boundary, files);
  }

  lemma SameRecords(r: Report, a: seq<Block>, b: seq<Block>)
    requires multiset(a) == multiset(b)
    ensures Exact(r, a, false, 0) <==> Exact(r, b, false, 0)
    ensures Exact(r, b, false, 0) ==> r.totalSize == SumSizes(b)
    ensures a == [] <==> b == []
  {
    hide Tallied, SizesAllBut, SizesAgree, Distinct, SumSizes, Scaled, SumBy;
    SameLength(a, b);
    if Exact(r, a, false, 0) {
      ExactByMultiset(r, a, b, false, 0);
    } else if Exact(r, b, false, 0) {
      ExactByMultiset(r, b, a, false, 0);
    }
  }
}
