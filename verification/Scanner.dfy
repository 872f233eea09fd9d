/** The scanner of scanner.cpp: a one-pass chunker over two alternating buffers. */
module Scanner {
  import opened Bytes
  import opened Rabin
  import opened Chunking
  import opened Boundaries
  import opened TraceTypes

  /** What the data log holds for a block seen for the first time. */
  datatype DataRecord = DataRecord(cksum: Checksum, size: nat, data: seq<u8>)

  // ---------- what the logs must contain ----------

  /** The chunk lies within data and its numbers fit the widths of a log record. */
  predicate Fits(data: seq<u8>, c: Chunk) {
    c.offset + c.size <= |data| < TWO_64 && c.size < TWO_32
  }

  predicate AllFit(data: seq<u8>, cs: seq<Chunk>) {
    forall i :: 0 <= i < |cs| ==> Fits(data, cs[i])
  }

  function Content(data: seq<u8>, c: Chunk): seq<u8>
    requires Fits(data, c)
  {
    data[c.offset..c.offset + c.size]
  }

  /** The log record of a chunk: the hash of exactly its bytes, its size and its offset. */
  function Entry(hash: Hash, fileId: u32, data: seq<u8>, c: Chunk): Block
    requires Fits(data, c)
  {
    Block(hash(Content(data, c)), fileId, c.size, c.offset)
  }

  function Entries(hash: Hash, fileId: u32, data: seq<u8>, cs: seq<Chunk>): seq<Block>
    requires AllFit(data, cs)
  {
    seq(|cs|, i requires 0 <= i < |cs| => Entry(hash, fileId, data, cs[i]))
  }

  predicate Recorded(log: seq<DataRecord>, cksum: Checksum) {
    exists i :: 0 <= i < |log| && log[i].cksum == cksum
  }

  /** The data log: the content of every chunk whose checksum has not occurred before. */
  function DataLog(hash: Hash, data: seq<u8>, cs: seq<Chunk>): seq<DataRecord>
    requires AllFit(data, cs)
  {
    if cs == [] then [] else
      var prev := DataLog(hash, data, cs[..|cs| - 1]);
      var c := cs[|cs| - 1];
      var ck := hash(Content(data, c));
      if Recorded(prev, ck) then prev else prev + [DataRecord(ck, c.size, Content(data, c))]
  }

  lemma {:induction false} LogsOfPrefix(hash: Hash, fileId: u32, data: seq<u8>, more: seq<u8>, cs: seq<Chunk>)
    requires AllFit(data, cs) && |data + more| < TWO_64
    ensures AllFit(data + more, cs)
    ensures Entries(hash, fileId, data + more, cs) == Entries(hash, fileId, data, cs)
    ensures DataLog(hash, data + more, cs) == DataLog(hash, data, cs)
  {
    forall i | 0 <= i < |cs|
      ensures Fits(data + more, cs[i]) && Content(data + more, cs[i]) == Content(data, cs[i])
    {
    }
    if cs != [] {
      LogsOfPrefix(hash, fileId, data, more, cs[..|cs| - 1]);
    }
  }

  // ---------- what the records say ----------

  /**
   * The records lie one behind the other from the start of the data, and each carries the hash of exactly the
   * bytes that its offset and size name.
   */
  ghost predicate Describes(log: seq<Block>, hash: Hash, fileId: u32, data: seq<u8>) {
    && (log != [] ==> log[0].offset == 0)
    && (forall i :: 0 <= i < |log| - 1 ==> log[i + 1].offset == log[i].offset + log[i].size)
    && (forall i :: 0 <= i < |log| ==> DescribesBytes(log[i], hash, fileId, data))
  }

  predicate DescribesBytes(b: Block, hash: Hash, fileId: u32, data: seq<u8>) {
    && b.size > 0 && b.offset + b.size <= |data|
    && b.cksum == hash(data[b.offset..b.offset + b.size]) && b.fileId == fileId
  }

  lemma EntriesDescribe(hash: Hash, fileId: u32, data: seq<u8>, cs: seq<Chunk>, hi: nat)
    requires AllFit(data, cs) && Tiles(cs, 0, hi)
    ensures Describes(Entries(hash, fileId, data, cs), hash, fileId, data)
  {
    var log := Entries(hash, fileId, data, cs);
    forall i | 0 <= i < |cs|
      ensures DescribesBytes(log[i], hash, fileId, data)
    {
      TilesInRange(cs, 0, hi, i);
    }
    forall i | 0 <= i < |cs| - 1
      ensures cs[i + 1].offset == cs[i].offset + cs[i].size
    {
      TilesFollow(cs, 0, hi, i);
    }
  }

  lemma {:induction false} TilesFollow(cs: seq<Chunk>, lo: nat, hi: nat, i: nat)
    requires Tiles(cs, lo, hi) && i + 1 < |cs|
    ensures cs[i + 1].offset == cs[i].offset + cs[i].size
  {
    if i > 0 {
      TilesFollow(cs[1..], lo + cs[0].size, hi, i - 1);
    }
  }

  /** Each record of the data log holds as many bytes as it says, under their hash. */
  lemma {:induction false} DataLogHolds(hash: Hash, data: seq<u8>, cs: seq<Chunk>, k: nat)
    requires AllFit(data, cs) && k < |DataLog(hash, data, cs)|
    ensures var r := DataLog(hash, data, cs)[k];
            r.size == |r.data| && r.cksum == hash(r.data)
  {
    if cs != [] {
      var t := cs[..|cs| - 1];
      if k < |DataLog(hash, data, t)| {
        DataLogHolds(hash, data, t, k);
      }
    }
  }

  lemma ScanFits(t: Thresholds, data: seq<u8>, boundary: nat, eof: bool)
    requires Sound(t) && |data| < TWO_64
    ensures AllFit(data, Scan(t, data, boundary, eof))
  {
    hide Scan, ScanOpen;
    var cs := Scan(t, data, boundary, eof);
    ScanTiles(t, data, boundary, eof);
    forall i | 0 <= i < |cs|
      ensures Fits(data, cs[i])
    {
      TilesInRange(cs, 0, if eof then |data| else ScanOpen(t, data, boundary), i);
      ScanBlocksBounded(t, data, boundary, eof, i);
    }
  }

  // ---------- the scan, piece by piece ----------

  /** The chunks completed after n bytes when the current piece starts at base. */
  function Progress(t: Thresholds, data: seq<u8>, boundary: nat, base: nat, n: nat): seq<Chunk>
    requires Sound(t) && base <= n <= |data|
  {
    (if base == 0 then [] else Scan(t, data[..base], boundary, true))
    + Shift(Chunks(t, Fps(data[base..n]), 0, false), base)
  }

  /** The backup_break field: the absolute pending backup position, zero for none. */
  function BackupBreak(t: Thresholds, data: seq<u8>, base: nat, n: nat): nat
    requires Sound(t) && base <= n <= |data|
  {
    match Pending(t, Fps(data[base..n]))
    case None => 0
    case Some(b) => base + b
  }

  lemma ProgressIsScan(t: Thresholds, data: seq<u8>, boundary: nat, n: nat)
    requires Sound(t) && n <= |data|
    ensures Progress(t, data, boundary, PieceStart(n, boundary), n) == Scan(t, data[..n], boundary, false)
  {
    hide PieceStart, Fps, Chunks, Shift;
    var base := PieceStart(n, boundary);
    assert data[..n][base..] == data[base..n] && data[..n][..base] == data[..base];
  }

  /** A hard boundary, like the end of the file, turns the open chunk into a block shorter than tmax. */
  lemma HardBreak(t: Thresholds, data: seq<u8>, boundary: nat)
    requires Sound(t)
    ensures var o := ScanOpen(t, data, boundary);
            Scan(t, data, boundary, true) ==
            Scan(t, data, boundary, false) + if o < |data| then [Chunk(o, |data| - o)] else []
    ensures |data| - ScanOpen(t, data, boundary) < t.tmax
  {
    hide PieceStart, Fps, Chunks, OpenStart, Cut, Scan, Before;
    var base := PieceStart(|data|, boundary);
    var fps := Fps(data[base..]);
    var o := OpenStart(t, fps, 0);
    EofTail(t, fps, 0);
    ScanUnfolds(t, data, boundary, true);
    ScanUnfolds(t, data, boundary, false);
    ShiftConcat(Chunks(t, fps, 0, false), if o < |fps| then [Chunk(o, |fps| - o)] else [], base);
  }

  /** The fingerprints once byte n is in. */
  lemma FpsAt(data: seq<u8>, base: nat, n: nat)
    requires base <= n < |data|
    ensures LastBytes(data[base..n + 1]) == LastBytes(data[base..n])[1..] + [data[n]]
    ensures Fps(data[base..n + 1]) ==
            Fps(data[base..n]) + [Fingerprint(LastBytes(data[base..n + 1]), POLY)]
  {
    hide Fps, Fingerprint, LastBytes;
    assert data[base..n + 1] == data[base..n] + [data[n]];
    LastBytesSlides(data[base..n], data[n]);
    FpsExtends(data[base..n], data[n]);
  }

  /** Byte n, with fingerprint f, completes no chunk. */
  lemma ByteOpen(t: Thresholds, data: seq<u8>, boundary: nat, base: nat, n: nat, f: nat)
    requires Sound(t) && base <= n < |data|
    requires f == Fingerprint(LastBytes(data[base..n + 1]), POLY)
    requires Completed(t, Fps(data[base..n]), f) == None
    ensures var fps, o := Fps(data[base..n]), OpenStart(t, Fps(data[base..n]), 0);
            && Progress(t, data, boundary, base, n + 1) == Progress(t, data, boundary, base, n)
            && OpenStart(t, Fps(data[base..n + 1]), 0) == o
            && BackupBreak(t, data, base, n + 1) ==
               if n - (base + o) + 1 >= t.tmin && Backup(t, f) then n else BackupBreak(t, data, base, n)
  {
    hide Fps, LastBytes, Fingerprint, OpenStart, Cut, Chunks, Completed, Pending, Primary, Backup, Scan;
    FpsAt(data, base, n);
    StepOpen(t, Fps(data[base..n]), f);
  }

  /** Byte n, with fingerprint f, completes the chunk that ends at base + c. */
  lemma ByteClosed(t: Thresholds, data: seq<u8>, boundary: nat, base: nat, n: nat, f: nat, c: nat)
    requires Sound(t) && base <= n < |data|
    requires f == Fingerprint(LastBytes(data[base..n + 1]), POLY)
    requires Completed(t, Fps(data[base..n]), f) == Some(c)
    ensures var o := OpenStart(t, Fps(data[base..n]), 0);
            && o <= c <= n - base
            && Progress(t, data, boundary, base, n + 1) ==
               Progress(t, data, boundary, base, n) + [Chunk(base + o, c - o + 1)]
            && OpenStart(t, Fps(data[base..n + 1]), 0) == c + 1
            && BackupBreak(t, data, base, n + 1) == 0
  {
    hide Fps, LastBytes, Fingerprint, OpenStart, Cut, Chunks, Completed, Pending, Primary, Backup, Scan;
    FpsAt(data, base, n);
    StepClosed(t, Fps(data[base..n]), f, c);
    var o := OpenStart(t, Fps(data[base..n]), 0);
    ShiftConcat(Chunks(t, Fps(data[base..n]), 0, false), [Chunk(o, c - o + 1)], base);
  }

  // ---------- the scanner object ----------

  class Scanner {
    const t: Thresholds
    const boundary: nat
    const hash: Hash
    const fileId: u32
    const dataOut: bool
    var newStart: nat
    var backupBreak: nat
    var b1Offset: nat
    var s: RabinState
    var ofs: seq<Block>
    var ofsdata: seq<DataRecord>
    var datamap: set<Checksum>

    /** The two logs hold exactly these chunks of data. */
    ghost predicate Logged(data: seq<u8>, cs: seq<Chunk>)
      reads `ofs, `ofsdata, `datamap
    {
      && AllFit(data, cs)
      && ofs == Entries(hash, fileId, data, cs)
      && ofsdata == (if dataOut then DataLog(hash, data, cs) else [])
      && (forall ck :: ck in datamap <==> Recorded(ofsdata, ck))
    }

    ghost predicate RabinReady()
      reads `s, s, s.buf, s.oldRinging, s.newRinging
    {
      s.Valid() && s.poly == POLY && s.size == RABIN_WINDOW_SIZE
    }

    /** The state after n bytes of data, in a piece that starts at base. */
    ghost predicate At(data: seq<u8>, base: nat, n: nat)
      reads `newStart, `backupBreak, `s, `ofs, `ofsdata, `datamap, s, s.buf, s.oldRinging, s.newRinging
    {
      && Sound(t) && base <= n <= |data| < TWO_64
      && RabinReady() && s.window == LastBytes(data[base..n])
      && newStart == base + OpenStart(t, Fps(data[base..n]), 0)
      && backupBreak == BackupBreak(t, data, base, n)
      && Logged(data, Progress(t, data, boundary, base, n))
    }

    /** The state between calls: data has been fed so far, and the end of the file has not been seen. */
    ghost predicate Fed(data: seq<u8>)
      reads this, s, s.buf, s.oldRinging, s.newRinging
    {
      b1Offset == |data| && At(data, PieceStart(|data|, boundary), |data|)
    }

    constructor (kb: nat, boundary: nat, hash: Hash, fileId: u32, dataOut: bool)
      requires 1 <= kb <= 2048
      ensures Fed([]) && fresh(s) && fresh(s.buf)
      ensures t == ThresholdsFor(kb)
      ensures this.boundary == boundary && this.hash == hash && this.fileId == fileId && this.dataOut == dataOut
    {
      this.t := ThresholdsFor(kb);
      this.boundary, this.hash, this.fileId, this.dataOut := boundary, hash, fileId, dataOut;
      newStart, backupBreak, b1Offset := 0, 0, 0;
      ofs, ofsdata, datamap := [], [], {};
      s := new RabinState(POLY, RABIN_WINDOW_SIZE);
      new;
      ThresholdsForSound(kb);
      FreshPiece(t, [], boundary, 0);
    }

    /** The bytes of the current buffer and of the previous one are where data has them. */
    ghost predicate Buffered(b1: array<u8>, b2: array<u8>, data: seq<u8>)
      reads `b1Offset, b1, b2
    {
      && b2.Length == READ_BUFFER_SIZE && |data| <= b1Offset + b1.Length
      && (forall i :: b1Offset <= i < |data| ==> data[i] == b1[i - b1Offset])
      && (forall i :: 0 <= i < |data| && b1Offset - READ_BUFFER_SIZE <= i < b1Offset ==>
            data[i] == b2[i + READ_BUFFER_SIZE - b1Offset])
    }

    /** The bytes from newStart to offset, which may lie in b1, in b2, or in both. */
    method BlockBytes(b1: array<u8>, b2: array<u8>, offset: nat, ghost data: seq<u8>) returns (bytes: seq<u8>)
      requires Buffered(b1, b2, data) && b1Offset <= newStart + READ_BUFFER_SIZE
      requires newStart <= offset < |data|
      ensures bytes == data[newStart..offset + 1]
    {
      var size := offset - newStart + 1;
      if newStart >= b1Offset {
        bytes := b1[newStart - b1Offset..newStart - b1Offset + size];
      } else {
        var at2 := newStart + READ_BUFFER_SIZE - b1Offset;
        if offset < b1Offset {
          bytes := b2[at2..at2 + size];
        } else {
          bytes := b2[at2..at2 + (b1Offset - newStart)];
          bytes := bytes + b1[..offset - b1Offset + 1];
        }
      }
    }

    /** Emits the block from newStart to offset. */
    method AddBreakpoint(b1: array<u8>, b2: array<u8>, offset: nat, ghost data: seq<u8>, ghost cs: seq<Chunk>)
      requires Buffered(b1, b2, data) && b1Offset <= newStart + READ_BUFFER_SIZE
      requires newStart <= offset + 1
      requires Fits(data, Chunk(newStart, offset - newStart + 1))
      requires Logged(data, cs)
      modifies `ofs, `ofsdata, `datamap
      ensures Logged(data, if newStart <= offset then cs + [Chunk(newStart, offset - newStart + 1)] else cs)
    {
      hide Buffered, DataLog, Entries, Recorded;
      var size := offset - newStart + 1;
      if size == 0 {
        return;
      }
      ghost var c := Chunk(newStart, size);
      LogGrows(hash, fileId, data, cs, c);
      var bytes := BlockBytes(b1, b2, offset, data);
      var cksum := hash(bytes);
      if dataOut && cksum !in datamap {
        datamap := datamap + {cksum};
        ofsdata := ofsdata + [DataRecord(cksum, size, bytes)];
        RecordedGrows(old(ofsdata), DataRecord(cksum, size, bytes));
      }
      ofs := ofs + [Block(cksum, fileId, size, newStart)];
    }

    /** At a multiple of the boundary size the open chunk ends and a fresh fingerprint starts. */
    method CrossBoundary(b1: array<u8>, b2: array<u8>, offset: nat, ghost data: seq<u8>)
      requires At(data, PieceStart(offset, boundary), offset)
      requires Buffered(b1, b2, data) && b1Offset <= offset
      modifies `newStart, `backupBreak, `s, `ofs, `ofsdata, `datamap
      ensures At(data, PieceStart(offset + 1, boundary), offset)
      ensures s == old(s) || (fresh(s) && fresh(s.buf))
    {
      hide Logged, Progress, BackupBreak, Fps, LastBytes, Scan, Pending, OpenStart, Cut, Fits, Buffered, PieceStart;
      PieceStartSteps(offset, boundary);
      if boundary != 0 && offset != 0 && offset % boundary == 0 {
        ghost var prefix, cs := data[..offset], Scan(t, data[..offset], boundary, false);
        ProgressIsScan(t, data, boundary, offset);
        HardBreak(t, prefix, boundary);
        OpenOfPrefix(t, data, boundary, offset);
        if newStart < offset {
          FitsOpen(data, newStart, offset, t);
          AddBreakpoint(b1, b2, offset - 1, data, cs);
        } else {
          assert cs + [] == cs;
        }
        newStart := offset;
        backupBreak := 0;
        s := new RabinState(POLY, RABIN_WINDOW_SIZE);
        FreshPiece(t, data, boundary, offset);
      }
    }

    /** Decides, for the byte at offset with fingerprint rabinf, whether and where a chunk ends. */
    method Decide(b1: array<u8>, b2: array<u8>, offset: nat, rabinf: nat, ghost data: seq<u8>, ghost base: nat)
      requires Sound(t) && base <= offset < |data| < TWO_64
      requires rabinf == Fingerprint(LastBytes(data[base..offset + 1]), POLY)
      requires newStart == base + OpenStart(t, Fps(data[base..offset]), 0)
      requires backupBreak == BackupBreak(t, data, base, offset)
      requires Logged(data, Progress(t, data, boundary, base, offset))
      requires Buffered(b1, b2, data) && b1Offset <= offset
      modifies `newStart, `backupBreak, `ofs, `ofsdata, `datamap
      ensures newStart == base + OpenStart(t, Fps(data[base..offset + 1]), 0)
      ensures backupBreak == BackupBreak(t, data, base, offset + 1)
      ensures Logged(data, Progress(t, data, boundary, base, offset + 1))
    {
      hide Logged, Progress, Fps, LastBytes, OpenStart, Cut, Fingerprint, Fits, Buffered, Primary, Backup, LastBackup;
      ghost var fps, n := Fps(data[base..offset]), offset - base;
      ghost var cs := Progress(t, data, boundary, base, offset);
      match Completed(t, fps, rabinf) {
        case None =>
          ByteOpen(t, data, boundary, base, offset, rabinf);
        case Some(c) =>
          ByteClosed(t, data, boundary, base, offset, rabinf, c);
          FitsOpen(data, newStart, base + c + 1, t);
      }
      if offset - newStart + 1 < t.tmin {  // shorter than every chunk but the last may be
        return;
      }
      if Backup(t, rabinf) {  // remembered in case the chunk gets too long
        backupBreak := offset;
      }
      if Primary(t, rabinf) {  // the chunk ends here
        AddBreakpoint(b1, b2, offset, data, cs);
        backupBreak := 0;
        newStart := offset + 1;
        return;
      }
      if offset - newStart + 1 < t.tmax {
        return;
      }
      if backupBreak != 0 {  // too long: fall back on the last candidate
        AddBreakpoint(b1, b2, backupBreak, data, cs);
        newStart := backupBreak + 1;
        backupBreak := 0;
      } else {  // and without one, cut at the limit
        AddBreakpoint(b1, b2, offset, data, cs);
        newStart := offset + 1;
        backupBreak := 0;
      }
    }

    /** One turn of the scanning loop: takes in byte p of b1. */
    method ScanByte(b1: array<u8>, b2: array<u8>, p: nat, ghost data: seq<u8>)
      requires At(data, PieceStart(b1Offset + p, boundary), b1Offset + p)
      requires Buffered(b1, b2, data) && b1Offset + p < |data|
      requires b1 != s.buf && b2 != s.buf
      modifies `newStart, `backupBreak, `s, `ofs, `ofsdata, `datamap, s, s.buf
      ensures At(data, PieceStart(b1Offset + p + 1, boundary), b1Offset + p + 1)
      ensures s == old(s) || (fresh(s) && fresh(s.buf))
    {
      hide Logged, Progress, Fps, LastBytes, Scan, BackupBreak, OpenStart, Cut, PieceStart, Fingerprint;
      var offset := b1Offset + p;
      ghost var base := PieceStart(offset + 1, boundary);
      CrossBoundary(b1, b2, offset, data);
      FpsAt(data, base, offset);
      assert data[offset] == b1[p];
      var rabinf := s.Slide8(b1[p]);
      Decide(b1, b2, offset, rabinf, data, base);
    }

    /** Appending data leaves the state at the end of what was fed before. */
    lemma Resume(fed: seq<u8>, more: seq<u8>)
      requires Fed(fed) && |fed + more| < TWO_64
      ensures At(fed + more, PieceStart(|fed|, boundary), |fed|)
    {
      hide Progress, Fps, LastBytes, Scan, BackupBreak, OpenStart, Cut, PieceStart, DataLog, Entries, Fits, AllFit;
      FedMore(t, hash, fileId, boundary, fed, more);
    }

    /** At the end of data the logs hold its chunks, and newStart is where the open one begins. */
    lemma AtEnd(data: seq<u8>)
      requires At(data, PieceStart(|data|, boundary), |data|)
      ensures Sound(t) && |data| < TWO_64
      ensures Logged(data, Scan(t, data, boundary, false))
      ensures newStart == ScanOpen(t, data, boundary)
    {
      hide Progress, Fps, LastBytes, Scan, BackupBreak, OpenStart, Cut, PieceStart, Logged;
      ProgressIsScan(t, data, boundary, |data|);
      OpenOfPrefix(t, data, boundary, |data|);
      assert data[..|data|] == data;
    }

    /** Scans the new data in b1; the unfinished chunk may begin in b2, which holds the data before it. */
    method VarScan(b1: array<u8>, b2: array<u8>, size: nat, eof: bool, ghost fed: seq<u8>)
      requires Fed(fed) && Buffered(b1, b2, fed)
      requires size <= b1.Length && |fed| + size < TWO_64
      requires b1 != s.buf && b2 != s.buf
      modifies this, s, s.buf
      ensures Sound(t) && b1Offset == |fed| + size
      ensures !eof ==> Fed(fed + b1[..size])
      ensures eof ==> Logged(fed + b1[..size], Scan(t, fed + b1[..size], boundary, true))
      ensures s == old(s) || (fresh(s) && fresh(s.buf))
    {
      hide At, Logged, Scan, ScanOpen, PieceStart, Fits;
      ghost var data := fed + b1[..size];
      Resume(fed, b1[..size]);
      for p := 0 to size
        invariant b1Offset == |fed| && b1 != s.buf && b2 != s.buf
        invariant s == old(s) || (fresh(s) && fresh(s.buf))
        invariant Buffered(b1, b2, data)
        invariant At(data, PieceStart(|fed| + p, boundary), |fed| + p)
      {
        ScanByte(b1, b2, p, data);
      }
      AtEnd(data);
      if eof {
        HardBreak(t, data, boundary);
        if newStart < size + b1Offset {
          FitsOpen(data, newStart, |data|, t);
          AddBreakpoint(b1, b2, size + b1Offset - 1, data, Scan(t, data, boundary, false));
        } else {
          assert Scan(t, data, boundary, false) + [] == Scan(t, data, boundary, false);
        }
      }
      b1Offset := b1Offset + size;
    }
  }

  /** What was logged, open and pending for the data so far stays so when more data is appended. */
  lemma FedMore(t: Thresholds, hash: Hash, fileId: u32, boundary: nat, fed: seq<u8>, more: seq<u8>)
    requires Sound(t) && |fed + more| < TWO_64
    ensures var base, data := PieceStart(|fed|, boundary), fed + more;
            && data[base..|fed|] == fed[base..|fed|]
            && BackupBreak(t, data, base, |fed|) == BackupBreak(t, fed, base, |fed|)
            && var cs := Progress(t, fed, boundary, base, |fed|);
            && Progress(t, data, boundary, base, |fed|) == cs
            && AllFit(fed, cs) && AllFit(data, cs)
            && Entries(hash, fileId, data, cs) == Entries(hash, fileId, fed, cs)
            && DataLog(hash, data, cs) == DataLog(hash, fed, cs)
  {
    hide PieceStart, Fps, Chunks, Scan, OpenStart, Pending;
    var base, data := PieceStart(|fed|, boundary), fed + more;
    assert data[base..|fed|] == fed[base..] == fed[base..|fed|];
    assert data[..base] == fed[..base];
    ProgressIsScan(t, fed, boundary, |fed|);
    assert fed[..|fed|] == fed;
    ScanFits(t, fed, boundary, false);
    LogsOfPrefix(hash, fileId, fed, more, Progress(t, fed, boundary, base, |fed|));
  }

  /** At the start of a piece nothing is open or pending and the fingerprint window is empty. */
  lemma FreshPiece(t: Thresholds, data: seq<u8>, boundary: nat, base: nat)
    requires Sound(t) && base <= |data|
    ensures OpenStart(t, Fps(data[base..base]), 0) == 0
    ensures BackupBreak(t, data, base, base) == 0
    ensures Progress(t, data, boundary, base, base) == if base == 0 then [] else Scan(t, data[..base], boundary, true)
    ensures LastBytes(data[base..base]) == seq(RABIN_WINDOW_SIZE, _ => 0 as u8)
  {
    hide Scan;
  }

  lemma OpenOfPrefix(t: Thresholds, data: seq<u8>, boundary: nat, n: nat)
    requires Sound(t) && n <= |data|
    ensures var base := PieceStart(n, boundary);
            ScanOpen(t, data[..n], boundary) == base + OpenStart(t, Fps(data[base..n]), 0)
  {
    hide PieceStart, Fps, OpenStart, Cut;
    var base := PieceStart(n, boundary);
    assert data[..n][base..] == data[base..n];
  }

  lemma FitsOpen(data: seq<u8>, start: nat, end: nat, t: Thresholds)
    requires Sound(t) && start <= end <= |data| < TWO_64 && end <= start + t.tmax
    ensures Fits(data, Chunk(start, end - start))
  {
  }

  lemma LogGrows(hash: Hash, fileId: u32, data: seq<u8>, cs: seq<Chunk>, c: Chunk)
    requires AllFit(data, cs) && Fits(data, c)
    ensures AllFit(data, cs + [c])
    ensures Entries(hash, fileId, data, cs + [c]) == Entries(hash, fileId, data, cs) + [Entry(hash, fileId, data, c)]
    ensures var r := DataRecord(hash(Content(data, c)), c.size, Content(data, c));
            DataLog(hash, data, cs + [c]) ==
            if Recorded(DataLog(hash, data, cs), r.cksum) then DataLog(hash, data, cs)
            else DataLog(hash, data, cs) + [r]
  {
    hide Recorded;
    assert (cs + [c])[..|cs|] == cs;
  }

  lemma RecordedGrows(log: seq<DataRecord>, r: DataRecord)
    ensures forall ck :: Recorded(log + [r], ck) <==> Recorded(log, ck) || ck == r.cksum
  {
    forall ck
      ensures Recorded(log + [r], ck) <==> Recorded(log, ck) || ck == r.cksum
    {
      assert (log + [r])[|log|] == r;
      assert forall i :: 0 <= i < |log| ==> (log + [r])[i] == log[i];
    }
  }
}
