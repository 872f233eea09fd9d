/** The file loop of dedup_main.cpp: two buffers that swap roles, feeding a scanner. */
module Driver {
  import opened Bytes
  import opened Arith
  import opened Rabin
  import opened Chunking
  import opened Boundaries
  import opened TraceTypes
  import opened Scanner

  /** Swaps the buffers and reads the next part of the file into the one that becomes p1. */
  method LoadData(file: seq<u8>, pp1: array<u8>, pp2: array<u8>, offset: nat)
      returns (p1: array<u8>, p2: array<u8>, nbytes: nat)
    requires offset <= |file| && pp1 != pp2 && pp2.Length == READ_BUFFER_SIZE
    modifies pp2
    ensures p1 == pp2 && p2 == pp1
    ensures nbytes <= READ_BUFFER_SIZE && offset + nbytes <= |file|
    ensures nbytes < READ_BUFFER_SIZE ==> offset + nbytes == |file|
    ensures p1[..nbytes] == file[offset..offset + nbytes]
  {
    p1, p2 := pp2, pp1;
    nbytes := if |file| - offset < READ_BUFFER_SIZE then |file| - offset else READ_BUFFER_SIZE;
    for i := 0 to nbytes
      invariant p1[..i] == file[offset..offset + i]
    {
      p1[i] := file[offset + i];
    }
  }

  /** The driver tells the scanner about the end of the file only when the last read is a short one. */
  predicate SignalsEof(file: seq<u8>) {
    |file| % READ_BUFFER_SIZE != 0
  }

  method ScanFile(sc: Scanner, buffer1: array<u8>, buffer2: array<u8>, file: seq<u8>) returns (cksum: Checksum)
    requires sc.Fed([]) && |file| < TWO_64
    requires buffer1.Length == buffer2.Length == READ_BUFFER_SIZE && buffer1 != buffer2
    requires buffer1 != sc.s.buf && buffer2 != sc.s.buf
    modifies sc, sc.s, sc.s.buf, buffer1, buffer2
    ensures Sound(sc.t) && sc.Logged(file, Scan(sc.t, file, sc.boundary, SignalsEof(file)))
    ensures Describes(sc.ofs, sc.hash, sc.fileId, file)
    ensures cksum == sc.hash(file)
  {
    hide Describes, Scan, PieceStart, Scanner.Fed, Scanner.At, Scanner.Logged, ScanOpen, Fits;
    var p1, p2, nbytes := LoadData(file, buffer1, buffer2, 0);
    var ctx, total := p1[..nbytes], 0;
    var eof := false;
    assert file[..0] == [];
    while nbytes > 0
      invariant !eof && total + nbytes <= |file| && total % READ_BUFFER_SIZE == 0
      invariant nbytes < READ_BUFFER_SIZE ==> total + nbytes == |file|
      invariant nbytes <= READ_BUFFER_SIZE
      invariant {p1, p2} == {buffer1, buffer2} && p1 != p2
      invariant p1 != sc.s.buf && p2 != sc.s.buf
      invariant sc.s == old(sc.s) || (fresh(sc.s) && fresh(sc.s.buf))
      invariant sc.s.buf == old(sc.s.buf) || fresh(sc.s.buf)
      invariant sc.Fed(file[..total])
      invariant sc.Buffered(p1, p2, file[..total])
      invariant p1[..nbytes] == file[total..total + nbytes]
      invariant ctx == file[..total + nbytes]
      decreases |file| - total
    {
      ghost var fed := file[..total];
      total := total + nbytes;
      if nbytes != READ_BUFFER_SIZE {
        eof := true;
      }
      sc.VarScan(p1, p2, nbytes, eof, fed);
      assert fed + p1[..nbytes] == file[..total];
      if eof {
        assert file[..total] == file;
        LogDescribes(sc, file);
        break;
      }
      p1, p2, nbytes := LoadData(file, p1, p2, total);
      ctx := ctx + p1[..nbytes];
    }
    cksum := sc.hash(ctx);
    assert ctx == file;
    if !eof {
      assert file[..total] == file;
      AfterLast(sc, file);
      LogDescribes(sc, file);
    }
  }

  lemma LogDescribes(sc: Scanner, file: seq<u8>)
    requires Sound(sc.t) && sc.Logged(file, Scan(sc.t, file, sc.boundary, SignalsEof(file)))
    ensures Describes(sc.ofs, sc.hash, sc.fileId, file)
  {
    hide Scan, ScanOpen, Entries, Tiles, Describes;
    var cs := Scan(sc.t, file, sc.boundary, SignalsEof(file));
    ScanTiles(sc.t, file, sc.boundary, SignalsEof(file));
    EntriesDescribe(sc.hash, sc.fileId, file, cs,
                    if SignalsEof(file) then |file| else ScanOpen(sc.t, file, sc.boundary));
  }

  lemma AfterLast(sc: Scanner, file: seq<u8>)
    requires sc.Fed(file)
    ensures Sound(sc.t) && sc.Logged(file, Scan(sc.t, file, sc.boundary, false))
  {
    hide Scan, PieceStart, Scanner.At, Scanner.Logged;
    sc.AtEnd(file);
  }

  // ---------- when the log covers the file ----------

  lemma {:induction false} TilesEndUnique(cs: seq<Chunk>, lo: nat, a: nat, b: nat)
    requires Tiles(cs, lo, a) && Tiles(cs, lo, b)
    ensures a == b
  {
    if cs != [] {
      TilesEndUnique(cs[1..], lo + cs[0].size, a, b);
    }
  }

  /**
   * The blocks logged for a file cover it exactly when its length is not a multiple of the read buffer
   * size or its last chunk happens to end with the last buffer. Otherwise the open chunk is lost.
   */
  lemma LogCoversFile(t: Thresholds, file: seq<u8>, boundary: nat)
    requires Sound(t)
    ensures Tiles(Scan(t, file, boundary, SignalsEof(file)), 0, |file|) <==>
            SignalsEof(file) || ScanOpen(t, file, boundary) == |file|
  {
    hide Scan, ScanOpen, Tiles;
    var cs := Scan(t, file, boundary, SignalsEof(file));
    ScanTiles(t, file, boundary, SignalsEof(file));
    if !SignalsEof(file) && Tiles(cs, 0, |file|) {
      TilesEndUnique(cs, 0, ScanOpen(t, file, boundary), |file|);
    }
  }

  function Zeros(n: nat): seq<u8> {
    seq(n, _ => 0)
  }

  lemma HardCut(t: Thresholds, fps: seq<nat>, s: nat)
    requires Sound(t) && s <= |fps|
    requires forall i :: 0 <= i < |fps| ==> !Backup(t, fps[i]) && !Primary(t, fps[i])
    ensures Cut(t, fps, s, false) == if s + t.tmax <= |fps| then Some(s + t.tmax - 1) else None
  {
    hide Backup, Primary, FirstPrimary, LastBackup;
  }

  /** Where no position is eligible, chunks are cut at the maximum size. */
  lemma {:induction false} HardCutsOnly(t: Thresholds, fps: seq<nat>, s: nat)
    requires Sound(t) && s <= |fps|
    requires forall i :: 0 <= i < |fps| ==> !Backup(t, fps[i]) && !Primary(t, fps[i])
    ensures OpenStart(t, fps, s) == |fps| - (|fps| - s) % t.tmax
    decreases |fps| - s
  {
    hide Backup, Primary, FirstPrimary, LastBackup, Cut, OpenStart;
    OpenUnfolds(t, fps, s);
    HardCut(t, fps, s);
    if s + t.tmax <= |fps| {
      HardCutsOnly(t, fps, s + t.tmax);
      ModSubtract(|fps| - s, t.tmax);
    } else {
      DivMod(|fps| - s, t.tmax, 0, |fps| - s);
    }
  }

  lemma ZeroFingerprints(n: nat)
    ensures forall i :: 0 <= i < n ==> Fps(Zeros(n))[i] == 0
  {
    forall i | 0 <= i < n
      ensures Fps(Zeros(n))[i] == 0
    {
      var w := LastBytes(Zeros(n)[..i + 1]);
      assert w == Zeros(RABIN_WINDOW_SIZE) + [];
      ValueLeadingZeros(RABIN_WINDOW_SIZE, []);
    }
  }

  /** Eight megabytes of zeros, scanned with an average block size of 3 KB, lose their last 8 KB. */
  lemma DriverLosesTail()
    ensures var t, file := ThresholdsFor(3), Zeros(READ_BUFFER_SIZE);
            Sound(t) && ScanOpen(t, file, 0) == |file| - 8192
            && !Tiles(Scan(t, file, 0, SignalsEof(file)), 0, |file|)
  {
    hide Scan, Tiles, Fps, OpenStart;
    var t, file := ThresholdsFor(3), Zeros(READ_BUFFER_SIZE);
    ZeroFingerprints(READ_BUFFER_SIZE);
    assert t.tmax == 12288;
    HardCutsOnly(t, Fps(file), 0);
    assert file[0..] == file;
    LogCoversFile(t, file, 0);
  }
}
