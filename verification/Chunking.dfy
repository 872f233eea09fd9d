/** What the TTTD chunker of scanner.cpp must produce, as a rescanning definition, and its properties. */
module Chunking {
  import opened Bytes
  import opened Arith
  import opened Rabin

  datatype Option<+T> = None | Some(value: T)

  /** Minimum and maximum chunk size, primary and backup divisor. */
  datatype Thresholds = Thresholds(tmin: nat, tmax: nat, d: nat, ddash: nat)

  datatype Chunk = Chunk(offset: nat, size: nat)

  const READ_BUFFER_SIZE: nat := 0x80_0000

  /** The thresholds of a scanner for an average block size of kb kilobytes. */
  function ThresholdsFor(kb: nat): Thresholds {
    var avg := 0x400 * kb;
    Thresholds(avg / 2, avg * 4, avg - avg / 2, (avg - avg / 2) / 2)
  }

  predicate Sound(t: Thresholds) {
    && RABIN_WINDOW_SIZE <= t.tmin <= t.tmax <= READ_BUFFER_SIZE
    && t.d == 2 * t.ddash && t.ddash > 0
  }

  lemma ThresholdsForSound(kb: nat)
    requires 1 <= kb <= 2048
    ensures Sound(ThresholdsFor(kb))
  {
    var quarter := 0x100 * kb;
    Halves(0x400 * kb, 2 * quarter);
    Halves(2 * quarter, quarter);
  }

  lemma Halves(n: nat, h: nat)
    requires n == 2 * h
    ensures n / 2 == h
  {
  }

  /** The minimum size is half the average and the maximum four times it; the divisor makes up the rest to it. */
  lemma ThresholdsMean(kb: nat)
    ensures var t, avg := ThresholdsFor(kb), 0x400 * kb;
            2 * t.tmin == avg && t.tmax == 4 * avg && t.tmin + t.d == avg && 2 * t.ddash == t.d
  {
    var quarter := 0x100 * kb;
    Halves(0x400 * kb, 2 * quarter);
    Halves(2 * quarter, quarter);
  }

  predicate Primary(t: Thresholds, fp: nat)
    requires t.d > 0
  {
    fp % t.d == t.d - 1
  }

  predicate Backup(t: Thresholds, fp: nat)
    requires t.ddash > 0
  {
    fp % t.ddash == t.ddash - 1
  }

  lemma PrimaryIsBackup(t: Thresholds, fp: nat)
    requires Sound(t) && Primary(t, fp)
    ensures Backup(t, fp)
  {
    LastOfDouble(fp, t.d, t.ddash);
  }

  /** A breakpoint is where the next number after the fingerprint is a multiple of the divisor. */
  lemma BreakpointsAreMultiples(t: Thresholds, fp: nat)
    requires t.d > 0 && t.ddash > 0
    ensures Primary(t, fp) <==> exists q: nat :: fp + 1 == Times(q, t.d)
    ensures Backup(t, fp) <==> exists q: nat :: fp + 1 == Times(q, t.ddash)
  {
    LastIsMultiple(fp, t.d);
    LastIsMultiple(fp, t.ddash);
  }

  function Times(q: nat, d: nat): nat {
    q * d
  }

  lemma LastIsMultiple(n: nat, d: nat)
    requires d > 0
    ensures n % d == d - 1 <==> exists q: nat :: n + 1 == Times(q, d)
  {
    var k := n / d;
    Euclid(n, d);
    if n % d == d - 1 {
      assert (k + 1) * d == k * d + d;
      assert n + 1 == Times(k + 1, d);
    }
    if q: nat :| n + 1 == Times(q, d) {
      assert q > 0;
      assert q * d == (q - 1) * d + d;
      DivMod(n, d, q - 1, d - 1);
    }
  }

  lemma LastOfDouble(n: nat, d: nat, e: nat)
    requires d == 2 * e && e > 0 && n % d == d - 1
    ensures n % e == e - 1
  {
    var q, r := Quotient(n, d);
    var k := 2 * q + 1;
    OddMultiple(q, d, k, e);
    DivMod(n, e, k, e - 1);
  }

  lemma OddMultiple(q: nat, d: nat, k: nat, e: nat)
    requires d == 2 * e && k == 2 * q + 1
    ensures k * e == q * d + e
  {
    var h := q * e;
    assert q * d == 2 * h by { assert q * (2 * e) == 2 * (q * e); }
    assert k * e == 2 * h + e by { assert (2 * q + 1) * e == 2 * (q * e) + e; }
  }

  // ---------- fingerprints of a byte string ----------

  /** The last 48 bytes of s, padded with leading zeros. */
  function LastBytes(s: seq<u8>): (w: seq<u8>)
    ensures |w| == RABIN_WINDOW_SIZE
  {
    (seq(RABIN_WINDOW_SIZE, _ => 0 as u8) + s)[|s|..]
  }

  /** The fingerprint after each byte of s, for a rabin state that was fresh before the first. */
  function Fps(s: seq<u8>): (fps: seq<nat>)
    ensures |fps| == |s|
  {
    seq(|s|, i requires 0 <= i < |s| => Fingerprint(LastBytes(s[..i + 1]), POLY))
  }

  lemma LastBytesSlides(s: seq<u8>, m: u8)
    ensures LastBytes(s + [m]) == LastBytes(s)[1..] + [m]
  {
  }

  lemma FpsExtends(s: seq<u8>, m: u8)
    ensures Fps(s + [m]) == Fps(s) + [Fingerprint(LastBytes(s + [m]), POLY)]
  {
    var f, g := Fps(s + [m]), Fps(s) + [Fingerprint(LastBytes(s + [m]), POLY)];
    forall i | 0 <= i <= |s|
      ensures f[i] == g[i]
    {
      assert (s + [m])[..i + 1] == if i < |s| then s[..i + 1] else s + [m];
    }
  }

  /** Once 48 bytes are in, a fingerprint does not depend on what came before them. */
  lemma FpsOfSuffix(s: seq<u8>, k: nat)
    requires k <= |s|
    ensures forall i :: RABIN_WINDOW_SIZE - 1 <= i < |s| - k ==> Fps(s)[i + k] == Fps(s[k..])[i]
  {
    forall i | RABIN_WINDOW_SIZE - 1 <= i < |s| - k
      ensures Fps(s)[i + k] == Fps(s[k..])[i]
    {
      var x, y := s[..i + k + 1], s[k..][..i + 1];
      assert x[k..] == y;
      assert LastBytes(x) == LastBytes(y);
    }
  }

  // ---------- the greedy definition ----------

  /** The first primary position in [lo, hi), or hi. */
  function FirstPrimary(t: Thresholds, fps: seq<nat>, lo: nat, hi: nat): (q: nat)
    requires Sound(t) && hi <= |fps|
    ensures q <= hi && (q < hi ==> lo <= q && Primary(t, fps[q]))
    ensures forall i :: lo <= i < q ==> !Primary(t, fps[i])
    decreases hi - lo
  {
    if lo >= hi then hi
    else if Primary(t, fps[lo]) then lo
    else FirstPrimary(t, fps, lo + 1, hi)
  }

  /** The last backup position in [lo, hi), if there is one. */
  function LastBackup(t: Thresholds, fps: seq<nat>, lo: nat, hi: nat): (b: Option<nat>)
    requires Sound(t) && hi <= |fps|
    ensures b.Some? ==> lo <= b.value < hi && Backup(t, fps[b.value])
    ensures forall i :: lo <= i < hi && (b.Some? ==> b.value < i) ==> !Backup(t, fps[i])
  {
    if hi <= lo then None
    else if Backup(t, fps[hi - 1]) then Some(hi - 1)
    else LastBackup(t, fps, lo, hi - 1)
  }

  /**
   * The last byte of the chunk that starts at s: the first primary position within the size limits;
   * failing that, when the maximum size is available, the last backup position or else a hard cut;
   * failing that, at the end of the data, everything that is left.
   */
  function Cut(t: Thresholds, fps: seq<nat>, s: nat, eof: bool): (c: Option<nat>)
    requires Sound(t) && s <= |fps|
    ensures c.Some? ==> s <= c.value < |fps| && c.value < s + t.tmax
    ensures c.Some? && !eof ==> s + t.tmin - 1 <= c.value
    ensures c.Some? && c.value < |fps| - 1 ==> s + t.tmin - 1 <= c.value
    ensures c.None? ==> |fps| < s + t.tmax && (eof ==> s == |fps|)
  {
    var lo := s + t.tmin - 1;
    var hi := if s + t.tmax <= |fps| then s + t.tmax else |fps|;
    var q := FirstPrimary(t, fps, lo, hi);
    if q < hi then Some(q)
    else if s + t.tmax <= |fps| then
      match LastBackup(t, fps, lo, hi)
      case Some(b) => Some(b)
      case None => Some(s + t.tmax - 1)
    else if eof && s < |fps| then Some(|fps| - 1)
    else None
  }

  /** Position i may end a chunk that starts at s, as far as the size limits go. */
  predicate Eligible(t: Thresholds, n: nat, s: nat, i: int) {
    s + t.tmin - 1 <= i < n && i < s + t.tmax
  }

  ghost predicate NoPrimary(t: Thresholds, fps: seq<nat>, s: nat, end: nat)
    requires Sound(t)
  {
    forall i :: Eligible(t, |fps|, s, i) && i < end ==> !Primary(t, fps[i])
  }

  ghost predicate NoBackup(t: Thresholds, fps: seq<nat>, s: nat, from: nat)
    requires Sound(t)
  {
    forall i :: Eligible(t, |fps|, s, i) && from <= i ==> !Backup(t, fps[i])
  }

  /** The declarative form of the definition: c ends the chunk that starts at s. */
  ghost predicate Greedy(t: Thresholds, fps: seq<nat>, s: nat, c: nat, eof: bool)
    requires Sound(t)
  {
    var n := |fps|;
    || (Eligible(t, n, s, c) && Primary(t, fps[c]) && NoPrimary(t, fps, s, c))
    || (NoPrimary(t, fps, s, n) && s + t.tmax <= n
        && Eligible(t, n, s, c) && Backup(t, fps[c]) && NoBackup(t, fps, s, c + 1))
    || (NoPrimary(t, fps, s, n) && s + t.tmax <= n && NoBackup(t, fps, s, 0) && c == s + t.tmax - 1)
    || (NoPrimary(t, fps, s, n) && n < s + t.tmax && eof && s <= c == n - 1)
  }

  lemma CutIsGreedy(t: Thresholds, fps: seq<nat>, s: nat, c: nat, eof: bool)
    requires Sound(t) && s <= |fps|
    ensures Cut(t, fps, s, eof) == Some(c) <==> Greedy(t, fps, s, c, eof)
  {
    hide Primary, Backup, FirstPrimary, LastBackup;
    var lo := s + t.tmin - 1;
    var hi := if s + t.tmax <= |fps| then s + t.tmax else |fps|;
    var q, b := FirstPrimary(t, fps, lo, hi), LastBackup(t, fps, lo, hi);
    assert q < hi ==> Eligible(t, |fps|, s, q);
    assert b.Some? ==> Eligible(t, |fps|, s, b.value);
  }

  /** The chunks from position s on. */
  function Chunks(t: Thresholds, fps: seq<nat>, s: nat, eof: bool): seq<Chunk>
    requires Sound(t) && s <= |fps|
    decreases |fps| - s
  {
    match Cut(t, fps, s, eof)
    case None => []
    case Some(c) => [Chunk(s, c - s + 1)] + Chunks(t, fps, c + 1, eof)
  }

  /** Where the chunk begins that the data so far does not yet complete. */
  function OpenStart(t: Thresholds, fps: seq<nat>, s: nat): (o: nat)
    requires Sound(t) && s <= |fps|
    ensures s <= o <= |fps| < o + t.tmax
    ensures Cut(t, fps, o, false).None?
    decreases |fps| - s
  {
    match Cut(t, fps, s, false)
    case None => s
    case Some(c) => OpenStart(t, fps, c + 1)
  }

  /** The last backup position inside the unfinished chunk. */
  function Pending(t: Thresholds, fps: seq<nat>): Option<nat>
    requires Sound(t)
  {
    LastBackup(t, fps, OpenStart(t, fps, 0) + t.tmin - 1, |fps|)
  }

  // ---------- one more byte ----------

  lemma CutStable(t: Thresholds, fps: seq<nat>, f: nat, s: nat)
    requires Sound(t) && s <= |fps| && Cut(t, fps, s, false).Some?
    ensures Cut(t, fps + [f], s, false) == Cut(t, fps, s, false)
  {
    hide Primary, Backup, FirstPrimary, LastBackup;
    var g := fps + [f];
    var lo := s + t.tmin - 1;
    var hi := if s + t.tmax <= |fps| then s + t.tmax else |fps|;
    var hi' := if s + t.tmax <= |g| then s + t.tmax else |g|;
    var q, q' := FirstPrimary(t, fps, lo, hi), FirstPrimary(t, g, lo, hi');
    assert forall i :: 0 <= i < |fps| ==> g[i] == fps[i];
    if q < hi {
      assert Primary(t, g[q]);
      assert q' == q;
    } else {
      assert hi == hi';
      assert q' == q;
      var b, b' := LastBackup(t, fps, lo, hi), LastBackup(t, g, lo, hi);
      assert b == b';
    }
  }

  lemma {:induction false} ChunksExtend(t: Thresholds, fps: seq<nat>, f: nat, s: nat)
    requires Sound(t) && s <= |fps|
    ensures var g, o := fps + [f], OpenStart(t, fps, s);
            && Chunks(t, g, s, false) == Chunks(t, fps, s, false) + Chunks(t, g, o, false)
            && OpenStart(t, g, s) == OpenStart(t, g, o)
    decreases |fps| - s
  {
    hide Primary, Backup, FirstPrimary, LastBackup, Cut;
    hide Chunks, OpenStart;
    var g := fps + [f];
    OpenUnfolds(t, fps, s);
    match Cut(t, fps, s, false)
    case None =>
      NoChunks(t, fps, s, false);
    case Some(c) =>
      CutStable(t, fps, f, s);
      OpenUnfolds(t, g, s);
      ChunksUnfold(t, fps, s, c, false);
      ChunksUnfold(t, g, s, c, false);
      ChunksExtend(t, fps, f, c + 1);
  }

  /** The chunk that the byte at position |fps| completes, if it completes one. */
  function Completed(t: Thresholds, fps: seq<nat>, f: nat): Option<nat>
    requires Sound(t)
  {
    var n, o := |fps|, OpenStart(t, fps, 0);
    if n - o + 1 < t.tmin then None
    else if Primary(t, f) then Some(n)
    else if n - o + 1 < t.tmax then None
    else if Backup(t, f) then Some(n)
    else if Pending(t, fps).Some? then Pending(t, fps)
    else Some(n)
  }

  /** No chunk can be completed from a start behind which nothing is eligible. */
  lemma NothingEligible(t: Thresholds, fps: seq<nat>, s: nat)
    requires Sound(t) && s <= |fps| < s + t.tmax
    requires forall i :: s + t.tmin - 1 <= i < |fps| ==> !Backup(t, fps[i])
    ensures Chunks(t, fps, s, false) == [] && OpenStart(t, fps, s) == s
    ensures LastBackup(t, fps, s + t.tmin - 1, |fps|) == None
  {
    hide Primary, Backup, FirstPrimary, LastBackup;
    forall i | s + t.tmin - 1 <= i < |fps|
      ensures !Primary(t, fps[i])
    {
      if Primary(t, fps[i]) {
        PrimaryIsBackup(t, fps[i]);
      }
    }
  }

  lemma CutOnByte(t: Thresholds, fps: seq<nat>, f: nat)
    requires Sound(t)
    ensures Cut(t, fps + [f], OpenStart(t, fps, 0), false) == Completed(t, fps, f)
  {
    hide Primary, Backup, FirstPrimary, LastBackup, OpenStart;
    var g, n, o := fps + [f], |fps|, OpenStart(t, fps, 0);
    var lo := o + t.tmin - 1;
    assert Cut(t, fps, o, false).None? && FirstPrimary(t, fps, lo, n) == n;
    assert forall i :: lo <= i < n ==> g[i] == fps[i] && !Primary(t, g[i]);
    if n >= lo {
      var q := FirstPrimary(t, g, lo, n + 1);
      assert g[n] == f;
      assert Primary(t, f) ==> q == n;
      if n - o + 1 == t.tmax && !Primary(t, f) {
        var b, b' := Pending(t, fps), LastBackup(t, g, lo, n + 1);
        assert b' == if Backup(t, f) then Some(n) else b;
      }
    }
  }

  lemma NoChunks(t: Thresholds, fps: seq<nat>, s: nat, eof: bool)
    requires Sound(t) && s <= |fps| && Cut(t, fps, s, eof) == None
    ensures Chunks(t, fps, s, eof) == []
  {
    hide Cut;
  }

  lemma ChunksUnfold(t: Thresholds, fps: seq<nat>, s: nat, c: nat, eof: bool)
    requires Sound(t) && s <= |fps| && Cut(t, fps, s, eof) == Some(c)
    ensures Chunks(t, fps, s, eof) == [Chunk(s, c - s + 1)] + Chunks(t, fps, c + 1, eof)
  {
    hide Cut;
  }

  lemma OpenUnfolds(t: Thresholds, fps: seq<nat>, s: nat)
    requires Sound(t) && s <= |fps|
    ensures OpenStart(t, fps, s) ==
            match Cut(t, fps, s, false) case None => s case Some(c) => OpenStart(t, fps, c + 1)
  {
  }

  lemma {:induction false} LastBackupExtends(t: Thresholds, fps: seq<nat>, f: nat, lo: nat, hi: nat)
    requires Sound(t) && hi <= |fps|
    ensures LastBackup(t, fps + [f], lo, hi) == LastBackup(t, fps, lo, hi)
  {
    hide Backup;
    if lo < hi {
      assert (fps + [f])[hi - 1] == fps[hi - 1];
      LastBackupExtends(t, fps, f, lo, hi - 1);
    }
  }

  /** The pending backup position after a byte that completes no chunk. */
  lemma PendingExtends(t: Thresholds, fps: seq<nat>, f: nat, o: nat)
    requires Sound(t) && OpenStart(t, fps + [f], 0) == o == OpenStart(t, fps, 0)
    ensures Pending(t, fps + [f]) ==
            if |fps| - o + 1 >= t.tmin && Backup(t, f) then Some(|fps|) else Pending(t, fps)
  {
    hide Primary, Backup, FirstPrimary, Cut, OpenStart;
    LastBackupExtends(t, fps, f, o + t.tmin - 1, |fps|);
    assert (fps + [f])[|fps|] == f;
  }

  /** Behind a chunk just completed nothing is eligible. */
  lemma NothingBehind(t: Thresholds, fps: seq<nat>, f: nat, c: nat)
    requires Sound(t) && Completed(t, fps, f) == Some(c)
    ensures var g := fps + [f];
            c < |g| < c + 1 + t.tmax && forall i :: c + t.tmin <= i < |g| ==> !Backup(t, g[i])
  {
    hide Primary, Backup, LastBackup, OpenStart;
    var g, n, o := fps + [f], |fps|, OpenStart(t, fps, 0);
    forall i | c + t.tmin <= i < |g|
      ensures !Backup(t, g[i])
    {
      assert o + t.tmin - 1 <= i;
      assert g[i] == if i < n then fps[i] else f;
    }
  }

  /** A byte that completes no chunk leaves chunks and open start alone. */
  lemma StepOpen(t: Thresholds, fps: seq<nat>, f: nat)
    requires Sound(t) && Completed(t, fps, f) == None
    ensures var g, o := fps + [f], OpenStart(t, fps, 0);
            && Chunks(t, g, 0, false) == Chunks(t, fps, 0, false) && OpenStart(t, g, 0) == o
            && Pending(t, g) ==
               if |fps| - o + 1 >= t.tmin && Backup(t, f) then Some(|fps|) else Pending(t, fps)
  {
    hide Primary, Backup, FirstPrimary, LastBackup, OpenStart, Cut, Completed, Pending;
    var g, o := fps + [f], OpenStart(t, fps, 0);
    ChunksExtend(t, fps, f, 0);
    CutOnByte(t, fps, f);
    OpenUnfolds(t, g, o);
    PendingExtends(t, fps, f, o);
  }

  /** A byte that completes a chunk adds it, and nothing is pending behind it. */
  lemma StepClosed(t: Thresholds, fps: seq<nat>, f: nat, c: nat)
    requires Sound(t) && Completed(t, fps, f) == Some(c)
    ensures var g, o := fps + [f], OpenStart(t, fps, 0);
            && o <= c <= |fps|
            && Chunks(t, g, 0, false) == Chunks(t, fps, 0, false) + [Chunk(o, c - o + 1)]
            && OpenStart(t, g, 0) == c + 1 && Pending(t, g) == None
  {
    hide Primary, Backup, FirstPrimary, LastBackup, OpenStart, Cut, Completed, Chunks;
    var g, o := fps + [f], OpenStart(t, fps, 0);
    ChunksExtend(t, fps, f, 0);
    CutOnByte(t, fps, f);
    OpenUnfolds(t, g, o);
    ChunksUnfold(t, g, o, c, false);
    NothingBehind(t, fps, f, c);
    NothingEligible(t, g, c + 1);
  }

  /** The end of the data matters only to a chunk that is still open. */
  lemma CutAtEof(t: Thresholds, fps: seq<nat>, s: nat)
    requires Sound(t) && s <= |fps|
    ensures Cut(t, fps, s, true) ==
            match Cut(t, fps, s, false)
            case Some(c) => Some(c)
            case None => if s < |fps| then Some(|fps| - 1) else None
  {
    hide FirstPrimary, LastBackup;
  }

  /** At the end of the data the open chunk becomes a block of its own, shorter than tmax. */
  lemma {:induction false} EofTail(t: Thresholds, fps: seq<nat>, s: nat)
    requires Sound(t) && s <= |fps|
    ensures var o := OpenStart(t, fps, s);
            |fps| - o < t.tmax &&
            Chunks(t, fps, s, true) ==
            Chunks(t, fps, s, false) + if o < |fps| then [Chunk(o, |fps| - o)] else []
    decreases |fps| - s
  {
    hide Cut;
    CutAtEof(t, fps, s);
    CutAtEof(t, fps, |fps|);
    match Cut(t, fps, s, false)
    case None =>
      assert Chunks(t, fps, |fps|, true) == [];
    case Some(c) =>
      EofTail(t, fps, c + 1);
  }

  // ---------- resynchronisation ----------

  function Moved(c: Chunk, k: nat): Chunk {
    Chunk(c.offset + k, c.size)
  }

  /** The same chunks, k bytes further on. */
  function Shift(cs: seq<Chunk>, k: nat): (r: seq<Chunk>)
    ensures |r| == |cs|
  {
    seq(|cs|, i requires 0 <= i < |cs| => Moved(cs[i], k))
  }

  lemma CutShifts(t: Thresholds, f: seq<nat>, g: seq<nat>, k: nat, s: nat, eof: bool)
    requires Sound(t) && |f| == |g| + k && s <= |g|
    requires forall i :: s + t.tmin - 1 <= i < |g| ==> f[i + k] == g[i]
    ensures Cut(t, f, s + k, eof) ==
            match Cut(t, g, s, eof) case None => None case Some(c) => Some(c + k)
  {
    hide Primary, Backup, FirstPrimary, LastBackup;
    var lo := s + t.tmin - 1;
    var hi := if s + t.tmax <= |g| then s + t.tmax else |g|;
    var q, p := FirstPrimary(t, g, lo, hi), FirstPrimary(t, f, lo + k, hi + k);
    assert q < hi ==> f[q + k] == g[q];
    assert p < hi + k ==> f[p] == g[p - k];
    assert p == q + k;
    if s + t.tmax <= |g| {
      var b, a := LastBackup(t, g, lo, hi), LastBackup(t, f, lo + k, hi + k);
      assert forall i :: lo + k <= i < hi + k ==> f[i] == g[i - k];
      assert b.Some? ==> Backup(t, f[b.value + k]);
      assert a.Some? ==> Backup(t, g[a.value - k]);
    }
  }

  /** Chunks from s on depend only on the fingerprints that are tested from s on. */
  lemma {:induction false} ChunksShift(t: Thresholds, f: seq<nat>, g: seq<nat>, k: nat, s: nat, eof: bool)
    requires Sound(t) && |f| == |g| + k && s <= |g|
    requires forall i :: s + t.tmin - 1 <= i < |g| ==> f[i + k] == g[i]
    ensures Chunks(t, f, s + k, eof) == Shift(Chunks(t, g, s, eof), k)
    decreases |g| - s
  {
    hide Cut;
    CutShifts(t, f, g, k, s, eof);
    match Cut(t, g, s, eof)
    case None =>
    case Some(c) =>
      ChunksShift(t, f, g, k, c + 1, eof);
  }

  /**
   * Resynchronisation: chunking the rest of a file from position k with a fresh scanner
   * gives the chunks that a scan reaching k as a chunk start would go on to give.
   */
  lemma Resynchronises(t: Thresholds, data: seq<u8>, k: nat, eof: bool)
    requires Sound(t) && k <= |data|
    ensures Chunks(t, Fps(data), k, eof) == Shift(Chunks(t, Fps(data[k..]), 0, eof), k)
  {
    FpsOfSuffix(data, k);
    ChunksShift(t, Fps(data), Fps(data[k..]), k, 0, eof);
  }

  /** Hence cutting a file after any emitted chunk and scanning the remainder yields the remaining chunks. */
  lemma {:induction false} CutAndRescan(t: Thresholds, data: seq<u8>, s: nat, j: nat, eof: bool)
    requires Sound(t) && s <= |data|
    requires j < |Chunks(t, Fps(data), s, eof)|
    ensures var cs := Chunks(t, Fps(data), s, eof);
            var k := cs[j].offset + cs[j].size;
            k <= |data| && cs[j + 1..] == Shift(Chunks(t, Fps(data[k..]), 0, eof), k)
    decreases j
  {
    hide Cut, Fps;
    var fps := Fps(data);
    var cs := Chunks(t, fps, s, eof);
    var c := Cut(t, fps, s, eof).value;
    var rest := Chunks(t, fps, c + 1, eof);
    assert cs == [Chunk(s, c - s + 1)] + rest;
    if j == 0 {
      assert cs[1..] == rest;
      Resynchronises(t, data, c + 1, eof);
    } else {
      assert cs[j] == rest[j - 1] && cs[j + 1..] == rest[j..];
      CutAndRescan(t, data, c + 1, j - 1, eof);
    }
  }

  // ---------- chunks tile the data, within the size limits ----------

  /** The chunks follow one another without gap or overlap from lo to hi, none of them empty. */
  predicate Tiles(cs: seq<Chunk>, lo: nat, hi: nat) {
    if cs == [] then lo == hi
    else cs[0].offset == lo && cs[0].size > 0 && Tiles(cs[1..], lo + cs[0].size, hi)
  }

  /** Every chunk is at most tmax long, and all but possibly the last at least tmin. */
  predicate WithinLimits(t: Thresholds, cs: seq<Chunk>) {
    forall i :: 0 <= i < |cs| ==> cs[i].size <= t.tmax && (i < |cs| - 1 ==> t.tmin <= cs[i].size)
  }

  lemma {:induction false} ChunksTile(t: Thresholds, fps: seq<nat>, s: nat, eof: bool)
    requires Sound(t) && s <= |fps|
    ensures Tiles(Chunks(t, fps, s, eof), s, if eof then |fps| else OpenStart(t, fps, s))
    ensures WithinLimits(t, Chunks(t, fps, s, eof))
    ensures !eof ==> forall c :: c in Chunks(t, fps, s, eof) ==> t.tmin <= c.size
    decreases |fps| - s
  {
    hide Cut;
    CutAtEof(t, fps, |fps|);
    CutAtEof(t, fps, s);
    match Cut(t, fps, s, eof)
    case None =>
    case Some(c) =>
      ChunksTile(t, fps, c + 1, eof);
      var rest := Chunks(t, fps, c + 1, eof);
      assert Chunks(t, fps, s, eof)[1..] == rest;
      if c == |fps| - 1 {
        assert Cut(t, fps, |fps|, eof).None?;
      }
  }
}
