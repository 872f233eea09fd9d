/** Scanning with hard boundaries: every multiple of the boundary size starts a chunk and a fresh fingerprint. */
module Boundaries {
  import opened Bytes
  import opened Arith
  import opened Chunking

  /** Where the last boundary-sized piece of n bytes starts; a boundary size of zero means no boundaries. */
  function PieceStart(n: nat, boundary: nat): (base: nat)
    ensures base <= n && (n > 0 ==> base < n)
    ensures boundary == 0 ==> base == 0
  {
    if boundary == 0 || n == 0 then 0 else
      Euclid(n - 1, boundary);
      (n - 1) / boundary * boundary
  }

  /** The chunks of data: every full piece is scanned to its end, the last one to its end only at eof. */
  function Scan(t: Thresholds, data: seq<u8>, boundary: nat, eof: bool): seq<Chunk>
    requires Sound(t)
    decreases |data|
  {
    var base := PieceStart(|data|, boundary);
    (if base == 0 then [] else Scan(t, data[..base], boundary, true))
    + Shift(Chunks(t, Fps(data[base..]), 0, eof), base)
  }

  /** Where the chunk begins that is still open after data. */
  function ScanOpen(t: Thresholds, data: seq<u8>, boundary: nat): (o: nat)
    requires Sound(t)
    ensures PieceStart(|data|, boundary) <= o <= |data| < o + t.tmax
  {
    var base := PieceStart(|data|, boundary);
    base + OpenStart(t, Fps(data[base..]), 0)
  }

  /** The chunks of the pieces before the last. */
  function Before(t: Thresholds, data: seq<u8>, boundary: nat): seq<Chunk>
    requires Sound(t)
  {
    var base := PieceStart(|data|, boundary);
    if base == 0 then [] else Scan(t, data[..base], boundary, true)
  }

  lemma ScanUnfolds(t: Thresholds, data: seq<u8>, boundary: nat, eof: bool)
    requires Sound(t)
    ensures var base := PieceStart(|data|, boundary);
            Scan(t, data, boundary, eof) ==
            Before(t, data, boundary) + Shift(Chunks(t, Fps(data[base..]), 0, eof), base)
  {
    hide Fps, Chunks, PieceStart;
  }

  lemma PieceStartSteps(n: nat, boundary: nat)
    ensures PieceStart(n + 1, boundary) ==
            if boundary != 0 && n != 0 && n % boundary == 0 then n else PieceStart(n, boundary)
  {
    if boundary != 0 && n != 0 {
      var q, r := n / boundary, n % boundary;
      Euclid(n, boundary);
      if r == 0 {
        DivMod(n, boundary, q, 0);
      } else {
        DivMod(n - 1, boundary, q, r - 1);
      }
    } else if boundary != 0 {
      DivMod(0, boundary, 0, 0);
    }
  }

  lemma PieceFits(n: nat, boundary: nat)
    requires boundary > 0
    ensures n - PieceStart(n, boundary) <= boundary
    ensures PieceStart(n, boundary) % boundary == 0
  {
    if n > 0 {
      var q := (n - 1) / boundary;
      Euclid(n - 1, boundary);
      DivMod(q * boundary, boundary, q, 0);
    } else {
      DivMod(0, boundary, 0, 0);
    }
  }

  // ---------- the blocks of a scan tile the data ----------

  lemma {:induction false} TilesConcat(a: seq<Chunk>, b: seq<Chunk>, lo: nat, mid: nat, hi: nat)
    requires Tiles(a, lo, mid) && Tiles(b, mid, hi)
    ensures Tiles(a + b, lo, hi)
  {
    if a == [] {
      assert a + b == b;
    } else {
      TilesConcat(a[1..], b, lo + a[0].size, mid, hi);
      assert (a + b)[1..] == a[1..] + b;
    }
  }

  lemma {:induction false} TilesShift(cs: seq<Chunk>, lo: nat, hi: nat, k: nat)
    requires Tiles(cs, lo, hi)
    ensures Tiles(Shift(cs, k), lo + k, hi + k)
  {
    if cs != [] {
      TilesShift(cs[1..], lo + cs[0].size, hi, k);
      assert Shift(cs, k)[1..] == Shift(cs[1..], k);
    }
  }

  lemma {:induction false} TilesInRange(cs: seq<Chunk>, lo: nat, hi: nat, i: nat)
    requires Tiles(cs, lo, hi) && i < |cs|
    ensures lo <= cs[i].offset < cs[i].offset + cs[i].size <= hi
  {
    if i == 0 {
      TilesEnd(cs[1..], lo + cs[0].size, hi);
    } else {
      TilesInRange(cs[1..], lo + cs[0].size, hi, i - 1);
    }
  }

  lemma {:induction false} TilesEnd(cs: seq<Chunk>, lo: nat, hi: nat)
    requires Tiles(cs, lo, hi)
    ensures lo <= hi
  {
    if cs != [] {
      TilesEnd(cs[1..], lo + cs[0].size, hi);
    }
  }

  /** At eof the blocks cover the whole file; before that, everything but the open chunk. */
  lemma {:induction false} ScanTiles(t: Thresholds, data: seq<u8>, boundary: nat, eof: bool)
    requires Sound(t)
    ensures Tiles(Scan(t, data, boundary, eof), 0, if eof then |data| else ScanOpen(t, data, boundary))
    decreases |data|
  {
    hide Fps, Chunks, OpenStart, PieceStart, Tiles, Cut, WithinLimits, Shift;
    var base := PieceStart(|data|, boundary);
    var fps := Fps(data[base..]);
    var cs := Chunks(t, fps, 0, eof);
    var end := if eof then |fps| else OpenStart(t, fps, 0);
    ChunksTile(t, fps, 0, eof);
    TilesShift(cs, 0, end, base);
    if base > 0 {
      ScanTiles(t, data[..base], boundary, true);
      TilesConcat(Scan(t, data[..base], boundary, true), Shift(cs, base), 0, base, base + end);
    } else {
      assert [] + Shift(cs, base) == Shift(cs, base);
    }
  }

  /** No block is longer than tmax, with or without boundaries. */
  lemma {:induction false} ScanBlocksBounded(t: Thresholds, data: seq<u8>, boundary: nat, eof: bool, i: nat)
    requires Sound(t) && i < |Scan(t, data, boundary, eof)|
    ensures Scan(t, data, boundary, eof)[i].size <= t.tmax
    decreases |data|
  {
    hide Fps, Chunks, OpenStart, PieceStart, Tiles, Cut;
    var base := PieceStart(|data|, boundary);
    ChunksTile(t, Fps(data[base..]), 0, eof);
    if base > 0 && i < |Scan(t, data[..base], boundary, true)| {
      ScanBlocksBounded(t, data[..base], boundary, true, i);
    }
  }

  /** Without boundaries every block but the last has a size between the two limits. */
  lemma ScanWithinLimits(t: Thresholds, data: seq<u8>, eof: bool)
    requires Sound(t)
    ensures WithinLimits(t, Scan(t, data, 0, eof))
  {
    ChunksTile(t, Fps(data), 0, eof);
    assert data[0..] == data;
    assert [] + Shift(Chunks(t, Fps(data), 0, eof), 0) == Scan(t, data, 0, eof);
  }

  // ---------- boundaries ----------

  predicate Crosses(c: Chunk, boundary: nat)
    requires boundary > 0
  {
    c.size > 0 && c.offset / boundary != (c.offset + c.size - 1) / boundary
  }

  lemma InsidePiece(c: Chunk, base: nat, boundary: nat)
    requires boundary > 0 && base % boundary == 0
    requires base <= c.offset && c.offset + c.size <= base + boundary
    ensures !Crosses(c, boundary)
  {
    if c.size > 0 {
      var q := base / boundary;
      Euclid(base, boundary);
      DivMod(c.offset, boundary, q, c.offset - base);
      DivMod(c.offset + c.size - 1, boundary, q, c.offset + c.size - 1 - base);
    }
  }

  /** No block crosses a multiple of the boundary. */
  lemma {:induction false} NoBlockCrosses(t: Thresholds, data: seq<u8>, boundary: nat, eof: bool)
    requires Sound(t) && boundary > 0
    ensures forall c :: c in Scan(t, data, boundary, eof) ==> !Crosses(c, boundary)
    decreases |data|
  {
    hide Fps, Chunks, OpenStart, PieceStart, Crosses;
    var base := PieceStart(|data|, boundary);
    var fps := Fps(data[base..]);
    var cs := Chunks(t, fps, 0, eof);
    var end := if eof then |fps| else OpenStart(t, fps, 0);
    PieceFits(|data|, boundary);
    ChunksTile(t, fps, 0, eof);
    forall i | 0 <= i < |cs|
      ensures !Crosses(Moved(cs[i], base), boundary)
    {
      TilesInRange(cs, 0, end, i);
      InsidePiece(Moved(cs[i], base), base, boundary);
    }
    if base > 0 {
      NoBlockCrosses(t, data[..base], boundary, true);
    }
  }

  lemma PieceStartAppends(m: nat, boundary: nat, n: nat)
    requires boundary > 0 && n > 0
    ensures PieceStart(m * boundary + n, boundary) == m * boundary + PieceStart(n, boundary)
  {
    var q, r, base := (n - 1) / boundary, (n - 1) % boundary, m * boundary;
    Euclid(n - 1, boundary);
    Distribute(m, q, boundary);
    DivMod(base + n - 1, boundary, m + q, r);
  }

  lemma Distribute(m: nat, q: nat, k: nat)
    ensures (m + q) * k == m * k + q * k
  {
  }

  lemma ShiftConcat(a: seq<Chunk>, b: seq<Chunk>, k: nat)
    ensures Shift(a + b, k) == Shift(a, k) + Shift(b, k)
  {
  }

  lemma ShiftTwice(a: seq<Chunk>, j: nat, k: nat)
    ensures Shift(Shift(a, j), k) == Shift(a, j + k)
  {
  }

  /** Scanning is independent on the two sides of a boundary. */
  lemma {:induction false} ScanSplits(t: Thresholds, a: seq<u8>, b: seq<u8>, m: nat, boundary: nat, eof: bool)
    requires Sound(t) && boundary > 0 && |a| == m * boundary && m > 0 && b != []
    ensures Scan(t, a + b, boundary, eof) ==
            Scan(t, a, boundary, true) + Shift(Scan(t, b, boundary, eof), |a|)
    decreases |b|
  {
    hide Fps, Chunks, PieceStart, Scan;
    var base := PieceStart(|b|, boundary);
    PieceStartAppends(m, boundary, |b|);
    MultipleIsPositive(m, boundary);
    ScanUnfolds(t, a + b, boundary, eof);
    ScanUnfolds(t, b, boundary, eof);
    var last := Chunks(t, Fps(b[base..]), 0, eof);
    assert (a + b)[|a| + base..] == b[base..];
    ShiftTwice(last, base, |a|);
    ShiftConcat(Before(t, b, boundary), Shift(last, base), |a|);
    if base == 0 {
      assert (a + b)[..|a|] == a;
      assert Shift([], |a|) == [] && [] + Shift(last, |a|) == Shift(last, |a|);
    } else {
      assert (a + b)[..|a| + base] == a + b[..base];
      ScanSplits(t, a, b[..base], m, boundary, true);
    }
  }

  lemma MultipleIsPositive(m: nat, d: nat)
    requires m > 0 && d > 0
    ensures m * d > 0
  {
  }

  /** The scan of a file is the shifted concatenation of fresh scans of its boundary-sized pieces. */
  function PieceScans(t: Thresholds, data: seq<u8>, boundary: nat): seq<Chunk>
    requires Sound(t) && boundary > 0
    decreases |data|
  {
    if |data| <= boundary then Chunks(t, Fps(data), 0, true)
    else Chunks(t, Fps(data[..boundary]), 0, true) + Shift(PieceScans(t, data[boundary..], boundary), boundary)
  }

  lemma OnePiece(t: Thresholds, data: seq<u8>, boundary: nat, eof: bool)
    requires Sound(t) && boundary > 0 && |data| <= boundary
    ensures Scan(t, data, boundary, eof) == Chunks(t, Fps(data), 0, eof)
  {
    hide Fps, Chunks;
    if data != [] {
      DivMod(|data| - 1, boundary, 0, |data| - 1);
    }
    assert data[0..] == data;
  }

  lemma {:induction false} ScanIsPieceScans(t: Thresholds, data: seq<u8>, boundary: nat)
    requires Sound(t) && boundary > 0
    ensures Scan(t, data, boundary, true) == PieceScans(t, data, boundary)
    decreases |data|
  {
    hide Fps, Chunks, PieceStart;
    if |data| <= boundary {
      OnePiece(t, data, boundary, true);
    } else {
      var a, b := data[..boundary], data[boundary..];
      assert a + b == data;
      ScanSplits(t, a, b, 1, boundary, true);
      OnePiece(t, a, boundary, true);
      ScanIsPieceScans(t, b, boundary);
    }
  }
}
