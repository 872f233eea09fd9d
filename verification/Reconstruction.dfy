/** The data log of the scanner is enough to rebuild the file. */
module Reconstruction {
  import opened Bytes
  import opened Chunking
  import opened Boundaries
  import opened TraceTypes
  import opened Scanner

  /** Chunks of equal checksum have equal content. */
  ghost predicate CollisionFree(hash: Hash, data: seq<u8>, cs: seq<Chunk>)
    requires AllFit(data, cs)
  {
    forall i, j :: 0 <= i < |cs| && 0 <= j < |cs| && hash(Content(data, cs[i])) == hash(Content(data, cs[j]))
      ==> Content(data, cs[i]) == Content(data, cs[j])
  }

  /** The content that the data log holds for a checksum, if it holds one. */
  function Lookup(log: seq<DataRecord>, cksum: Checksum): Option<seq<u8>> {
    if log == [] then None
    else if log[0].cksum == cksum then Some(log[0].data)
    else Lookup(log[1..], cksum)
  }

  /** The contents of the logged blocks in order, each looked up by its checksum. */
  function Rebuild(log: seq<DataRecord>, blocks: seq<Block>): Option<seq<u8>> {
    if blocks == [] then Some([]) else
      match (Rebuild(log, blocks[..|blocks| - 1]), Lookup(log, blocks[|blocks| - 1].cksum))
      case (Some(a), Some(b)) => Some(a + b)
      case _ => None
  }

  lemma {:induction false} LookupFinds(log: seq<DataRecord>, cksum: Checksum)
    ensures Recorded(log, cksum) <==> Lookup(log, cksum).Some?
    ensures Lookup(log, cksum).Some? ==>
              exists i :: 0 <= i < |log| && log[i].cksum == cksum && log[i].data == Lookup(log, cksum).value
  {
    if log != [] {
      LookupFinds(log[1..], cksum);
      assert forall i :: 1 <= i < |log| ==> log[i] == log[1..][i - 1];
    }
  }

  function RecordOf(hash: Hash, data: seq<u8>, c: Chunk): DataRecord
    requires Fits(data, c)
  {
    DataRecord(hash(Content(data, c)), c.size, Content(data, c))
  }

  ghost predicate StemsFrom(hash: Hash, data: seq<u8>, cs: seq<Chunk>, r: DataRecord)
    requires AllFit(data, cs)
  {
    exists i :: 0 <= i < |cs| && r == RecordOf(hash, data, cs[i])
  }

  /** Each chunk's checksum is recorded, each record stems from a chunk, and no checksum occurs twice. */
  ghost predicate LogInvariant(hash: Hash, data: seq<u8>, cs: seq<Chunk>, log: seq<DataRecord>)
    requires AllFit(data, cs)
  {
    && (forall i :: 0 <= i < |cs| ==> Recorded(log, hash(Content(data, cs[i]))))
    && (forall k :: 0 <= k < |log| ==> StemsFrom(hash, data, cs, log[k]))
    && (forall j, k :: 0 <= j < k < |log| ==> log[j].cksum != log[k].cksum)
  }

  /** Every record of the data log stems from a chunk, and every chunk has its checksum recorded, once. */
  lemma {:induction false} DataLogRecords(hash: Hash, data: seq<u8>, cs: seq<Chunk>)
    requires AllFit(data, cs)
    ensures LogInvariant(hash, data, cs, DataLog(hash, data, cs))
  {
    if cs != [] {
      hide Fits, Content;
      var t, c := cs[..|cs| - 1], cs[|cs| - 1];
      DataLogRecords(hash, data, t);
      assert t + [c] == cs;
      DataLogStep(hash, data, t, c);
    }
  }

  lemma DataLogStep(hash: Hash, data: seq<u8>, cs: seq<Chunk>, c: Chunk)
    requires AllFit(data, cs) && Fits(data, c) && LogInvariant(hash, data, cs, DataLog(hash, data, cs))
    ensures AllFit(data, cs + [c]) && LogInvariant(hash, data, cs + [c], DataLog(hash, data, cs + [c]))
  {
    hide Content, Fits, DataLog, Recorded;
    var log, more := DataLog(hash, data, cs), cs + [c];
    var r := RecordOf(hash, data, c);
    LogGrows(hash, 0, data, cs, c);
    RecordedGrows(log, r);
    assert more[|cs|] == c && forall i :: 0 <= i < |cs| ==> more[i] == cs[i];
    forall k | 0 <= k < |log|
      ensures StemsFrom(hash, data, more, log[k]) && (log[k].cksum == r.cksum ==> Recorded(log, r.cksum))
    {
      StemsFromMore(hash, data, cs, c, log[k]);
      IsRecorded(log, k);
    }
    assert StemsFrom(hash, data, more, r);
  }

  lemma StemsFromMore(hash: Hash, data: seq<u8>, cs: seq<Chunk>, c: Chunk, r: DataRecord)
    requires AllFit(data, cs) && Fits(data, c) && StemsFrom(hash, data, cs, r)
    ensures StemsFrom(hash, data, cs + [c], r)
  {
    hide Fits, Content;
    var i :| 0 <= i < |cs| && r == RecordOf(hash, data, cs[i]);
    assert (cs + [c])[i] == cs[i];
  }

  lemma IsRecorded(log: seq<DataRecord>, k: nat)
    requires k < |log|
    ensures Recorded(log, log[k].cksum)
  {
  }

  lemma LookupOfChunk(hash: Hash, data: seq<u8>, cs: seq<Chunk>, i: nat)
    requires AllFit(data, cs) && CollisionFree(hash, data, cs) && i < |cs|
    ensures Lookup(DataLog(hash, data, cs), hash(Content(data, cs[i]))) == Some(Content(data, cs[i]))
  {
    hide Content, Lookup, DataLog, Fits;
    DataLogRecords(hash, data, cs);
    LookupFinds(DataLog(hash, data, cs), hash(Content(data, cs[i])));
  }

  lemma {:induction false} TilesSplitLast(cs: seq<Chunk>, lo: nat, hi: nat)
    requires Tiles(cs, lo, hi) && cs != []
    ensures var c := cs[|cs| - 1];
            lo <= c.offset && c.offset + c.size == hi && Tiles(cs[..|cs| - 1], lo, c.offset)
  {
    if |cs| == 1 {
    } else {
      var rest := cs[1..];
      TilesSplitLast(rest, lo + cs[0].size, hi);
      assert cs[..|cs| - 1][1..] == rest[..|rest| - 1];
      assert cs[|cs| - 1] == rest[|rest| - 1];
    }
  }

  lemma RebuildStep(log: seq<DataRecord>, blocks: seq<Block>, a: seq<u8>, b: seq<u8>)
    requires blocks != [] && Rebuild(log, blocks[..|blocks| - 1]) == Some(a)
    requires Lookup(log, blocks[|blocks| - 1].cksum) == Some(b)
    ensures Rebuild(log, blocks) == Some(a + b)
  {
    hide Lookup;
  }

  lemma {:induction false} RebuildPrefix(hash: Hash, fileId: u32, data: seq<u8>, cs: seq<Chunk>, n: nat, hi: nat)
    requires AllFit(data, cs) && CollisionFree(hash, data, cs) && n <= |cs|
    requires Tiles(cs[..n], 0, hi) && hi <= |data|
    ensures Rebuild(DataLog(hash, data, cs), Entries(hash, fileId, data, cs)[..n]) == Some(data[..hi])
  {
    hide DataLog, Lookup, CollisionFree;
    var log, blocks := DataLog(hash, data, cs), Entries(hash, fileId, data, cs)[..n];
    if n > 0 {
      hide Rebuild;
      var c := cs[n - 1];
      TilesSplitLast(cs[..n], 0, hi);
      assert cs[..n][..n - 1] == cs[..n - 1];
      RebuildPrefix(hash, fileId, data, cs, n - 1, c.offset);
      assert blocks[..n - 1] == Entries(hash, fileId, data, cs)[..n - 1];
      LookupOfChunk(hash, data, cs, n - 1);
      RebuildStep(log, blocks, data[..c.offset], Content(data, c));
      assert data[..c.offset] + Content(data, c) == data[..hi];
    }
  }

  /** Looking up each logged block and concatenating gives back the file, with or without boundaries. */
  lemma FileIsRebuilt(t: Thresholds, hash: Hash, fileId: u32, data: seq<u8>, boundary: nat)
    requires Sound(t) && |data| < TWO_64
    requires var cs := Scan(t, data, boundary, true);
             AllFit(data, cs) ==> CollisionFree(hash, data, cs)
    ensures var cs := Scan(t, data, boundary, true);
            AllFit(data, cs)
            && Rebuild(DataLog(hash, data, cs), Entries(hash, fileId, data, cs)) == Some(data)
  {
    hide Scan;
    var cs := Scan(t, data, boundary, true);
    ScanFits(t, data, boundary, true);
    ScanTiles(t, data, boundary, true);
    assert cs[..|cs|] == cs;
    RebuildPrefix(hash, fileId, data, cs, |cs|, |data|);
    var blocks := Entries(hash, fileId, data, cs);
    assert blocks[..|cs|] == blocks;
    assert data[..|data|] == data;
  }
}
