/** Segments of trace_types.cpp: building them, their file format, and the fixed-size split of a trace. */
module Segments {
  import opened Gf2
  import opened Bytes
  import opened Chunking
  import opened TraceTypes

  const FIX_SEGMENT_SIZE: nat := 2 * 1024 * 1024

  // ---------- streams ----------

  class InStream {
    var rest: seq<u8>

    constructor (s: seq<u8>)
      ensures rest == s
    {
      rest := s;
    }

    /** Reads n bytes, or all that are left. */
    method Read(n: nat) returns (buf: seq<u8>)
      modifies this
      ensures buf + rest == old(rest)
      ensures |buf| == if n <= |old(rest)| then n else |old(rest)|
    {
      var k := if n <= |rest| then n else |rest|;
      buf := rest[..k];
      rest := rest[k..];
    }
  }

  /** The first record of a stream and what follows it. */
  function ParseBlock(s: seq<u8>): Option<(Block, seq<u8>)> {
    if |s| < RECORD_SIZE then None else Some((DecodeBlock(s[..RECORD_SIZE]), s[RECORD_SIZE..]))
  }

  /** Reads one record, in two parts; a short read anywhere fails. */
  method ReadBlock(input: InStream) returns (blk: Option<Block>)
    modifies input
    ensures match ParseBlock(old(input.rest))
            case Some((b, rest)) => blk == Some(b) && input.rest == rest
            case None => blk == None && input.rest == []
  {
    hide DecodeBlock;
    var s := input.rest;
    var cksum := input.Read(CKSUM_LEN);
    if |cksum| != CKSUM_LEN {
      return None;
    }
    var buf := input.Read(RECORD_SIZE - CKSUM_LEN);
    if |buf| != RECORD_SIZE - CKSUM_LEN {
      return None;
    }
    blk := Some(Block(cksum, Word(buf[..4]), Word(buf[4..8]), LongWord(buf[8..16])));
    RecordFields(s, cksum, buf);
  }

  lemma RecordFields(s: seq<u8>, cksum: seq<u8>, buf: seq<u8>)
    requires |cksum| == CKSUM_LEN && |buf| == 16 && cksum + buf <= s
    ensures |s| >= RECORD_SIZE
    ensures DecodeBlock(s[..RECORD_SIZE]) == Block(cksum, Word(buf[..4]), Word(buf[4..8]), LongWord(buf[8..16]))
  {
    hide Word, LongWord;
    var r := s[..RECORD_SIZE];
    assert r == cksum + buf;
    assert r[20..24] == buf[..4] && r[24..28] == buf[4..8] && r[28..36] == buf[8..16];
  }

  // ---------- segments ----------

  /** The total size, in the 32 bits that a segment keeps it in. */
  function Size32(bs: seq<Block>): u32 {
    Low32(SumSizes(bs))
  }

  /** The bytes over which the checksum of a segment is taken. */
  function CksumBytes(bs: seq<Block>): seq<u8> {
    if bs == [] then [] else CksumBytes(bs[..|bs| - 1]) + bs[|bs| - 1].cksum
  }

  /** All 20 bytes of each checksum, one after the other. */
  lemma {:induction false} CksumBytesAt(bs: seq<Block>, i: nat)
    requires i < |bs|
    ensures |CksumBytes(bs)| == CKSUM_LEN * |bs|
    ensures CksumBytes(bs)[CKSUM_LEN * i..CKSUM_LEN * i + CKSUM_LEN] == bs[i].cksum
  {
    var t, b := bs[..|bs| - 1], bs[|bs| - 1];
    CksumBytesLength(t);
    if i < |t| {
      CksumBytesAt(t, i);
      assert CksumBytes(bs)[CKSUM_LEN * i..CKSUM_LEN * i + CKSUM_LEN] ==
             CksumBytes(t)[CKSUM_LEN * i..CKSUM_LEN * i + CKSUM_LEN];
    }
  }

  lemma {:induction false} CksumBytesLength(bs: seq<Block>)
    ensures |CksumBytes(bs)| == CKSUM_LEN * |bs|
  {
    if bs != [] {
      CksumBytesLength(bs[..|bs| - 1]);
    }
  }

  predicate SameCksums(a: seq<Block>, b: seq<Block>) {
    |a| == |b| && forall i :: 0 <= i < |a| ==> a[i].cksum == b[i].cksum
  }

  /** Two segments are hashed from the same bytes if and only if they list the same checksums. */
  lemma {:induction false} SameCksumBytes(a: seq<Block>, b: seq<Block>)
    ensures CksumBytes(a) == CksumBytes(b) <==> SameCksums(a, b)
  {
    CksumBytesLength(a);
    CksumBytesLength(b);
    if CksumBytes(a) == CksumBytes(b) {
      forall i | 0 <= i < |a|
        ensures a[i].cksum == b[i].cksum
      {
        CksumBytesAt(a, i);
        CksumBytesAt(b, i);
      }
    }
    if SameCksums(a, b) && a != [] {
      SameCksumBytes(a[..|a| - 1], b[..|b| - 1]);
    }
  }

  /** idx is the leftmost position of the least checksum. */
  predicate LeftmostMin(bs: seq<Block>, idx: nat) {
    if bs == [] then idx == 0 else
      && idx < |bs|
      && (forall i :: 0 <= i < |bs| ==> Key(bs[idx].cksum) <= Key(bs[i].cksum))
      && (forall i :: 0 <= i < idx ==> Key(bs[idx].cksum) < Key(bs[i].cksum))
  }

  /** No block before the position kept has a checksum as small, and none behind it a smaller one. */
  lemma MinIsFirst(bs: seq<Block>, idx: nat, k: nat)
    requires LeftmostMin(bs, idx) && k < |bs|
    ensures idx < |bs| && !CksumLess(bs[k].cksum, bs[idx].cksum)
    ensures bs[k].cksum == bs[idx].cksum ==> idx <= k
  {
    hide Key;
    ChecksumOrder(bs[k].cksum, bs[idx].cksum);
  }

  function SegmentBytes(bs: seq<Block>): seq<u8> {
    ToBytes(|bs|, 4) + EncodeAll(bs)
  }

  /** A segment is its number of blocks in four bytes, and then its records. */
  lemma SegmentLayout(bs: seq<Block>)
    requires |bs| < TWO_32
    ensures var s := SegmentBytes(bs);
            && |s| == 4 + RECORD_SIZE * |bs|
            && |bs| == Four(s[0], s[1], s[2], s[3])
            && s[4..] == EncodeAll(bs)
  {
    hide ToBytes, FromBytes, EncodeAll, Pow2;
    WordBounds();
    FromToBytes(|bs|, 4);
    var s := SegmentBytes(bs);
    assert s[..4] == ToBytes(|bs|, 4);
    FourBytes(s[..4]);
    assert s[..4][4..] == [];
  }

  /** The first segment of a stream and what follows it. */
  function ParseSegment(s: seq<u8>): Option<(seq<Block>, seq<u8>)> {
    if |s| < 4 then None else
      var end := 4 + RECORD_SIZE * FromBytes(s[..4]);
      if |s| < end then None else Some((DecodeAll(s[4..end]), s[end..]))
  }

  lemma ParseSegmentBytes(bs: seq<Block>, rest: seq<u8>)
    requires |bs| < TWO_32
    ensures ParseSegment(SegmentBytes(bs) + rest) == Some((bs, rest))
  {
    hide ToBytes, FromBytes, EncodeAll, DecodeAll, Pow2;
    WordBounds();
    FromToBytes(|bs|, 4);
    DecodeEncodeAll(bs);
    var s := SegmentBytes(bs) + rest;
    var end := 4 + RECORD_SIZE * |bs|;
    assert s[..4] == ToBytes(|bs|, 4);
    assert s[4..end] == EncodeAll(bs);
    assert s[end..] == rest;
  }

  function StreamBytes(segs: seq<seq<Block>>): seq<u8> {
    if segs == [] then [] else SegmentBytes(segs[0]) + StreamBytes(segs[1..])
  }

  /** All segments that can be read from a stream. */
  function ParseAll(s: seq<u8>): seq<seq<Block>>
    decreases |s|
  {
    match ParseSegment(s)
    case Some((bs, rest)) => [bs] + ParseAll(rest)
    case None => []
  }

  /** Reading back any sequence of segments gives the same segments. */
  lemma {:induction false} ParseWritten(segs: seq<seq<Block>>)
    requires forall i :: 0 <= i < |segs| ==> |segs[i]| < TWO_32
    ensures ParseAll(StreamBytes(segs)) == segs
  {
    hide SegmentBytes;
    if segs == [] {
      assert ParseSegment([]) == None;
    } else {
      hide ParseSegment;
      ParseSegmentBytes(segs[0], StreamBytes(segs[1..]));
      ParseWritten(segs[1..]);
    }
  }

  class Segment {
    const hash: Hash
    var blocklist: seq<Block>
    var minIdx: nat
    var size: u32
    var cksum: Checksum
    var ctx: seq<u8>

    constructor (hash: Hash)
      ensures this.hash == hash && Valid() && blocklist == []
    {
      this.hash := hash;
      blocklist, minIdx, size, ctx := [], 0, 0, [];
      cksum := seq(CKSUM_LEN, _ => 0);
    }

    /** The 32-bit total size, the position of the least checksum and the hash input match the blocks. */
    ghost predicate Valid()
      reads this
    {
      && size == Size32(blocklist)
      && LeftmostMin(blocklist, minIdx)
      && ctx == CksumBytes(blocklist)
    }

    method Init()
      modifies this
      ensures Valid() && blocklist == []
    {
      blocklist, minIdx, size, ctx := [], 0, 0, [];
    }

    method AddBlock(blk: Block)
      requires Valid()
      modifies this
      ensures Valid() && blocklist == old(blocklist) + [blk]
    {
      hide Key, Memcmp, LeftmostMin, Size32, Low32;
      ghost var before := blocklist;
      MinAppend(before, blk, minIdx);
      blocklist := blocklist + [blk];
      SumAppend(before, blk, size);
      size := Low32(size + blk.size);
      ctx := ctx + blk.cksum;
      assert blocklist[..|blocklist| - 1] == before;
      ChecksumOrder(blk.cksum, blocklist[minIdx].cksum);
      if CksumLess(blk.cksum, blocklist[minIdx].cksum) {
        minIdx := |blocklist| - 1;
      }
    }

    method Final()
      requires Valid()
      modifies `cksum
      ensures Valid() && cksum == hash(CksumBytes(blocklist))
    {
      cksum := hash(ctx);
    }

    method ToStream() returns (s: seq<u8>)
      requires |blocklist| < TWO_32
      ensures s == SegmentBytes(blocklist)
    {
      hide EncodeBlock, ToBytes;
      s := ToBytes(|blocklist|, 4);
      for i := 0 to |blocklist|
        invariant s == ToBytes(|blocklist|, 4) + EncodeAll(blocklist[..i])
      {
        assert blocklist[..i + 1] == blocklist[..i] + [blocklist[i]];
        EncodeAllAppend(blocklist[..i], blocklist[i]);
        s := s + EncodeBlock(blocklist[i]);
      }
      assert blocklist[..|blocklist|] == blocklist;
    }

    /** Reads one segment; a stream that ends too early fails. */
    method FromStream(input: InStream) returns (ok: bool)
      modifies this, input
      ensures ok ==> ParseSegment(old(input.rest)) == Some((blocklist, input.rest))
                     && Valid() && cksum == hash(CksumBytes(blocklist))
      ensures !ok ==> ParseSegment(old(input.rest)) == None
    {
      hide FromBytes, DecodeBlock, CksumBytes, Size32, LeftmostMin;
      ghost var s := input.rest;
      Init();
      var buf := input.Read(4);
      if |buf| != 4 {
        return false;
      }
      assert s[..4] == buf && s[4..] == input.rest;
      var n := Word(buf);
      for i := 0 to n
        invariant Valid() && 4 + RECORD_SIZE * i <= |s|
        invariant input.rest == s[4 + RECORD_SIZE * i..]
        invariant blocklist == DecodeAll(s[4..4 + RECORD_SIZE * i])
      {
        ghost var at := 4 + RECORD_SIZE * i;
        var blk := ReadBlock(input);
        if blk == None {
          return false;
        }
        DecodeAllAppend(s[4..at], s[at..at + RECORD_SIZE]);
        assert s[4..at] + s[at..at + RECORD_SIZE] == s[4..at + RECORD_SIZE];
        assert s[at..][..RECORD_SIZE] == s[at..at + RECORD_SIZE];
        AddBlock(blk.value);
      }
      Final();
      ok := true;
    }

    /** Loads the next segment of a trace: records up to the one that brings the size to 2 MB. */
    method LoadFixSize(input: InStream) returns (ok: bool)
      modifies this, input
      ensures Valid() && cksum == hash(CksumBytes(blocklist))
      ensures var r := Fill(old(input.rest), []);
              blocklist == r.0 && input.rest == r.1 && ok == (Size32(r.0) != 0)
    {
      hide CksumBytes, Size32, LeftmostMin, ParseBlock;
      ghost var s := input.rest;
      Init();
      while true
        invariant Valid() && Fill(s, []) == Fill(input.rest, blocklist)
        decreases |input.rest|
      {
        ghost var before := input.rest;
        var blk := ReadBlock(input);
        ParseBlockShrinks(before);
        if blk == None {
          break;
        }
        if blk.value.size == 0 {
          continue;
        }
        AddBlock(blk.value);
        if size >= FIX_SEGMENT_SIZE {
          break;
        }
      }
      Final();
      ok := size != 0;
    }
  }

  // ---------- the fixed-size split of a trace ----------

  lemma ParseBlockShrinks(s: seq<u8>)
    ensures ParseBlock(s).Some? ==> |ParseBlock(s).value.1| < |s|
    ensures ParseBlock(s).None? ==> |s| < RECORD_SIZE
  {
    hide DecodeBlock;
  }

  /** Continues the segment taken with the records of s; the second part of the result is what is left. */
  function Fill(s: seq<u8>, taken: seq<Block>): (r: (seq<Block>, seq<u8>))
    ensures |r.1| <= |s| && (r.0 == taken || |r.1| < |s|)
    decreases |s|
  {
    match ParseBlock(s)
    case None => (taken, [])
    case Some((b, rest)) =>
      ParseBlockShrinks(s);
      if b.size == 0 then Fill(rest, taken)
      else if Size32(taken + [b]) >= FIX_SEGMENT_SIZE then (taken + [b], rest)
      else Fill(rest, taken + [b])
  }

  /** The segments that repeated LoadFixSize calls give until one fails. */
  function Split(s: seq<u8>): seq<seq<Block>>
    decreases |s|
  {
    var r := Fill(s, []);
    if Size32(r.0) == 0 then [] else [r.0] + Split(r.1)
  }

  /** The records of a trace, without the zero-size ones. */
  function NonEmpty(s: seq<u8>): seq<Block>
    decreases |s|
  {
    match ParseBlock(s)
    case None => []
    case Some((b, rest)) =>
      ParseBlockShrinks(s);
      (if b.size == 0 then [] else [b]) + NonEmpty(rest)
  }

  /** The segment still open after the records bs, when taken was open before: 2 MB by the 32-bit size close it. */
  function Pending(taken: seq<Block>, bs: seq<Block>): seq<Block>
    decreases |bs|
  {
    if bs == [] then taken else
      var t := taken + [bs[0]];
      Pending(if Size32(t) >= FIX_SEGMENT_SIZE then [] else t, bs[1..])
  }

  /** The records at the end of a trace that no segment gets: those still open, if their 32-bit size is zero. */
  function Lost(bs: seq<Block>): seq<Block> {
    var p := Pending([], bs);
    if Size32(p) == 0 then p else []
  }

  /** The 32-bit size stays below 2 MB up to the final block. */
  ghost predicate OpenBefore(bs: seq<Block>, n: nat) {
    n <= |bs| && forall k :: 0 <= k < n ==> Size32(bs[..k]) < FIX_SEGMENT_SIZE
  }

  lemma OpenAppend(t: seq<Block>, b: Block)
    requires OpenBefore(t, |t|) && Size32(t) < FIX_SEGMENT_SIZE
    ensures OpenBefore(t + [b], |t| + 1)
  {
    hide Size32;
    var more := t + [b];
    assert more[..|t|] == t;
    assert forall k :: 0 <= k < |t| ==> more[..k] == t[..k];
  }

  /**
   * What Fill takes, together with what it leaves, is the trace. It stops with the record that brings the
   * 32-bit size to 2 MB; until then it goes on to the end of the trace.
   */
  lemma {:induction false} FillTakes(s: seq<u8>, taken: seq<Block>)
    requires OpenBefore(taken, |taken|) && Size32(taken) < FIX_SEGMENT_SIZE
    ensures var r := Fill(s, taken);
            && taken + NonEmpty(s) == r.0 + NonEmpty(r.1) && OpenBefore(r.0, |r.0|)
            && (Size32(r.0) < FIX_SEGMENT_SIZE ==> r.1 == [])
    decreases |s|
  {
    hide ParseBlock, Size32, OpenBefore;
    match ParseBlock(s)
    case None =>
      NothingLeft();
    case Some((b, rest)) =>
      hide NonEmpty, Fill;
      ParseBlockShrinks(s);
      NonEmptyStep(s, b, rest);
      FillStep(s, b, rest, taken);
      if b.size == 0 {
        FillTakes(rest, taken);
      } else {
        var t := taken + [b];
        OpenAppend(taken, b);
        assert t + NonEmpty(rest) == taken + ([b] + NonEmpty(rest));
        if Size32(t) < FIX_SEGMENT_SIZE {
          FillTakes(rest, t);
        }
      }
  }

  /** Filling a segment is following the records until it closes. */
  lemma {:induction false} FillIsPending(s: seq<u8>, taken: seq<Block>)
    requires Size32(taken) < FIX_SEGMENT_SIZE
    ensures var r := Fill(s, taken);
            Pending(taken, NonEmpty(s)) ==
            if Size32(r.0) < FIX_SEGMENT_SIZE then r.0 else Pending([], NonEmpty(r.1))
    decreases |s|
  {
    hide ParseBlock, Size32, Pending;
    match ParseBlock(s)
    case None =>
      NothingLeft();
      PendingNone(taken);
    case Some((b, rest)) =>
      hide NonEmpty, Fill;
      ParseBlockShrinks(s);
      NonEmptyStep(s, b, rest);
      FillStep(s, b, rest, taken);
      if b.size == 0 {
        assert [] + NonEmpty(rest) == NonEmpty(rest);
        FillIsPending(rest, taken);
      } else {
        var t := taken + [b];
        PendingStep(taken, b, NonEmpty(rest));
        if Size32(t) < FIX_SEGMENT_SIZE {
          FillIsPending(rest, t);
        }
      }
  }

  lemma PendingNone(taken: seq<Block>)
    ensures Pending(taken, []) == taken
  {
  }

  lemma PendingStep(taken: seq<Block>, b: Block, bs: seq<Block>)
    ensures var t := taken + [b];
            Pending(taken, [b] + bs) == Pending(if Size32(t) >= FIX_SEGMENT_SIZE then [] else t, bs)
  {
    hide Size32;
    assert ([b] + bs)[1..] == bs;
  }

  lemma FillStep(s: seq<u8>, b: Block, rest: seq<u8>, taken: seq<Block>)
    requires ParseBlock(s) == Some((b, rest))
    ensures Fill(s, taken) ==
            if b.size == 0 then Fill(rest, taken)
            else if Size32(taken + [b]) >= FIX_SEGMENT_SIZE then (taken + [b], rest)
            else Fill(rest, taken + [b])
  {
    hide ParseBlock, Size32;
    ParseBlockShrinks(s);
  }

  lemma NonEmptyStep(s: seq<u8>, b: Block, rest: seq<u8>)
    requires ParseBlock(s) == Some((b, rest))
    ensures NonEmpty(s) == (if b.size == 0 then [] else [b]) + NonEmpty(rest)
  {
    hide ParseBlock;
    ParseBlockShrinks(s);
  }

  lemma FlattenFront(first: seq<Block>, rest: seq<seq<Block>>)
    ensures Flatten([first] + rest) == first + Flatten(rest)
  {
    var all := [first] + rest;
    if rest == [] {
      assert all[..0] == [] && Flatten([]) == [];
    } else {
      FlattenFront(first, rest[..|rest| - 1]);
      assert all[..|all| - 1] == [first] + rest[..|rest| - 1];
    }
  }

  /** A segment that closes: 2 MB are reached, in 32 bits and in truth, and in 32 bits not before the final block. */
  ghost predicate Closes(g: seq<Block>) {
    Size32(g) >= FIX_SEGMENT_SIZE && !BelowFix(g)
  }

  predicate BelowFix(bs: seq<Block>) {
    SumSizes(bs) < FIX_SEGMENT_SIZE
  }

  /**
   * For every trace: the segments, followed by the lost records, are the trace without zero-size records. So
   * nothing is lost or reordered if and only if Lost is empty. Up to the final block of a segment its 32-bit
   * size is below 2 MB. Each segment but the last reaches 2 MB, and the last one too if records are lost.
   */
  lemma {:induction false} SplitKeepsTrace(s: seq<u8>)
    ensures NonEmpty(s) == Flatten(Split(s)) + Lost(NonEmpty(s))
    ensures Flatten(Split(s)) == NonEmpty(s) <==> Lost(NonEmpty(s)) == []
    ensures forall i :: 0 <= i < |Split(s)| ==>
              && Split(s)[i] != [] && OpenBefore(Split(s)[i], |Split(s)[i]|)
              && (i < |Split(s)| - 1 || Lost(NonEmpty(s)) != [] ==> Closes(Split(s)[i]))
    decreases |s|
  {
    hide Fill, NonEmpty, Size32, OpenBefore, Closes, Pending;
    var r := Fill(s, []);
    OpenNothing();
    FillTakes(s, []);
    FillIsPending(s, []);
    assert [] + NonEmpty(s) == NonEmpty(s);
    NothingLeft();
    if Size32(r.0) != 0 {
      FlattenFront(r.0, Split(r.1));
      SplitKeepsTrace(r.1);
      if Size32(r.0) < FIX_SEGMENT_SIZE {
        SplitNothing();
      } else {
        assert Closes(r.0) by { ClosesTruly(r.0); }
      }
      assert Split(s) == [r.0] + Split(r.1);
    }
  }

  /** Loading one segment takes it off the split and leaves the lost records the same, or ends with them. */
  lemma LoadStep(s: seq<u8>)
    ensures var r := Fill(s, []);
            if Size32(r.0) == 0 then Split(s) == [] && Lost(NonEmpty(s)) == r.0 && r.1 == []
            else Split(s) == [r.0] + Split(r.1) && Lost(NonEmpty(s)) == Lost(NonEmpty(r.1)) && |r.1| < |s|
  {
    hide Fill, NonEmpty, Size32, OpenBefore, Pending;
    OpenNothing();
    FillTakes(s, []);
    FillIsPending(s, []);
    NothingLeft();
  }

  lemma OpenNothing()
    ensures Size32([]) == 0 && OpenBefore([], 0)
    ensures Pending([], []) == []
  {
  }

  lemma ClosesTruly(g: seq<Block>)
    requires Size32(g) >= FIX_SEGMENT_SIZE
    ensures Closes(g)
  {
    hide SumSizes;
    LowBits(SumSizes(g));
  }

  /**
   * The sizes before the final block of a segment really add up to less than 2 MB if and only if they do not
   * leave the 32 bits.
   */
  lemma BelowFixTruly(g: seq<Block>)
    requires g != [] && OpenBefore(g, |g|)
    ensures BelowFix(g[..|g| - 1]) <==> SumSizes(g[..|g| - 1]) < TWO_32
  {
    hide SumSizes;
    LowBits(SumSizes(g[..|g| - 1]));
    assert Size32(g[..|g| - 1]) < FIX_SEGMENT_SIZE;
  }

  lemma NothingLeft()
    ensures NonEmpty([]) == []
  {
    hide ParseBlock;
    ParseBlockShrinks([]);
  }

  lemma SplitNothing()
    ensures Split([]) == []
  {
    hide ParseBlock;
    ParseBlockShrinks([]);
  }

  // ---------- traces in which no size wraps ----------

  /** No record is so large that adding it to a segment below 2 MB would wrap the 32-bit size. */
  ghost predicate NoWrap(bs: seq<Block>) {
    forall b :: b in bs ==> b.size <= TWO_32 - FIX_SEGMENT_SIZE
  }

  /** Without a wrap the true size is the 32-bit size. */
  lemma {:induction false} TrueSizes(bs: seq<Block>, k: nat)
    requires OpenBefore(bs, |bs|) && NoWrap(bs) && k <= |bs|
    ensures SumSizes(bs[..k]) < TWO_32 && Size32(bs[..k]) == SumSizes(bs[..k])
  {
    if k == 0 {
      OpenNothing();
    } else {
      TrueSizes(bs, k - 1);
      assert bs[..k] == bs[..k - 1] + [bs[k - 1]] && bs[k - 1] in bs;
      assert Size32(bs[..k - 1]) < FIX_SEGMENT_SIZE;
      SumSizesAppend(bs[..k - 1], bs[k - 1]);
      hide SumSizes;
      LowBits(SumSizes(bs[..k]));
    }
  }

  lemma {:induction false} PendingOpen(taken: seq<Block>, bs: seq<Block>)
    requires OpenBefore(taken, |taken|) && Size32(taken) < FIX_SEGMENT_SIZE
    ensures OpenBefore(Pending(taken, bs), |Pending(taken, bs)|)
    ensures forall b :: b in Pending(taken, bs) ==> b in taken || b in bs
    decreases |bs|
  {
    hide Size32, OpenBefore;
    if bs != [] {
      var t := taken + [bs[0]];
      OpenAppend(taken, bs[0]);
      OpenNothing();
      PendingOpen(if Size32(t) >= FIX_SEGMENT_SIZE then [] else t, bs[1..]);
    }
  }

  lemma {:induction false} NonEmptySizes(s: seq<u8>)
    ensures forall b :: b in NonEmpty(s) ==> b.size > 0
    decreases |s|
  {
    hide ParseBlock;
    match ParseBlock(s)
    case None =>
    case Some((b, rest)) =>
      ParseBlockShrinks(s);
      NonEmptySizes(rest);
  }

  lemma SumZero(bs: seq<Block>)
    requires SumSizes(bs) == 0 && forall b :: b in bs ==> b.size > 0
    ensures bs == []
  {
    hide SumSizes;
    if bs != [] {
      var t, b := bs[..|bs| - 1], bs[|bs| - 1];
      assert b in bs && bs == t + [b];
      SumSizesAppend(t, b);
    }
  }

  lemma {:induction false} InFlatten(parts: seq<seq<Block>>, i: nat, b: Block)
    requires i < |parts| && b in parts[i]
    ensures b in Flatten(parts)
  {
    if i < |parts| - 1 {
      InFlatten(parts[..|parts| - 1], i, b);
    }
  }

  /** With no record above the bound nothing is lost, and 2 MB are truly reached with the final block only. */
  lemma SplitKeepsSmallRecords(s: seq<u8>)
    requires NoWrap(NonEmpty(s))
    ensures Flatten(Split(s)) == NonEmpty(s)
    ensures forall i :: 0 <= i < |Split(s)| ==> Split(s)[i] != [] && BelowFix(Split(s)[i][..|Split(s)[i]| - 1])
  {
    hide Split, NonEmpty, Pending, Size32, SumSizes, Flatten;
    var bs := NonEmpty(s);
    SplitKeepsTrace(s);
    NonEmptySizes(s);
    var p := Pending([], bs);
    OpenNothing();
    PendingOpen([], bs);
    TrueSizes(p, |p|);
    assert p[..|p|] == p;
    if Size32(p) == 0 {
      SumZero(p);
    }
    forall i | 0 <= i < |Split(s)|
      ensures BelowFix(Split(s)[i][..|Split(s)[i]| - 1])
    {
      var g := Split(s)[i];
      forall b | b in g
        ensures b in bs
      {
        InFlatten(Split(s), i, b);
      }
      TrueSizes(g, |g| - 1);
    }
  }

  /** The bound on record sizes is the best one: above it, a record can wrap the size to zero and lose a segment. */
  lemma WrapLosesSegment(b: Block)
    requires b.size > TWO_32 - FIX_SEGMENT_SIZE
    ensures var a := b.(size := TWO_32 - b.size);
            var s := EncodeAll([a, b]);
            a.size < FIX_SEGMENT_SIZE && NonEmpty(s) == [a, b] && Split(s) == []
  {
    hide DecodeBlock, EncodeBlock;
    var a := b.(size := TWO_32 - b.size);
    var s := EncodeAll([a, b]);
    var t := EncodeAll([b]);
    assert EncodeAll([]) == [];
    assert t == EncodeBlock(b) + [] && [a, b][1..] == [b] && [b][1..] == [];
    assert s == EncodeBlock(a) + t;
    DecodeEncode(a);
    DecodeEncode(b);
    assert s[..RECORD_SIZE] == EncodeBlock(a) && s[RECORD_SIZE..] == t;
    assert t[..RECORD_SIZE] == EncodeBlock(b) && t[RECORD_SIZE..] == [];
    assert ParseBlock(s) == Some((a, t)) && ParseBlock(t) == Some((b, [])) && ParseBlock([]) == None;
    assert NonEmpty(t) == [b] + NonEmpty([]) && NonEmpty(s) == [a] + NonEmpty(t);
    assert [] + [a] == [a] && [a] + [b] == [a, b];
    assert [a][..0] == [] && [a, b][..1] == [a];
    assert SumSizes([a]) == a.size && SumSizes([a, b]) == SumSizes([a]) + b.size;
    assert Fill([], [a, b]) == ([a, b], []);
    assert Fill(t, [a]) == Fill([], [a, b]);
    assert Fill(s, []) == Fill(t, [a]);
  }

  lemma MinAppend(bs: seq<Block>, blk: Block, idx: nat)
    requires LeftmostMin(bs, idx)
    ensures idx < |bs + [blk]|
    ensures var least := Key((bs + [blk])[idx].cksum);
            LeftmostMin(bs + [blk], if Key(blk.cksum) < least then |bs| else idx)
  {
    hide Key;
    var more := bs + [blk];
    assert more[|bs|] == blk && forall i :: 0 <= i < |bs| ==> more[i] == bs[i];
  }

  lemma SumAppend(bs: seq<Block>, blk: Block, size: nat)
    requires size == Size32(bs)
    ensures Low32(size + blk.size) == Size32(bs + [blk])
  {
    hide SumSizes, Low32;
    SumSizesAppend(bs, blk);
    AddLow(SumSizes(bs), blk.size);
  }

  lemma {:induction false} EncodeAllAppend(bs: seq<Block>, b: Block)
    ensures EncodeAll(bs + [b]) == EncodeAll(bs) + EncodeBlock(b)
  {
    hide EncodeBlock;
    if bs == [] {
      assert EncodeAll([]) == [];
      assert EncodeAll([b]) == EncodeBlock(b) + EncodeAll([]);
    } else {
      EncodeAllAppend(bs[1..], b);
      assert (bs + [b])[1..] == bs[1..] + [b];
    }
  }

  lemma {:induction false} DecodeAllAppend(s: seq<u8>, r: seq<u8>)
    requires |s| % RECORD_SIZE == 0 && |r| == RECORD_SIZE
    ensures DecodeAll(s + r) == DecodeAll(s) + [DecodeBlock(r)]
    decreases |s|
  {
    hide DecodeBlock;
    if s == [] {
      assert s + r == r && r[..RECORD_SIZE] == r && r[RECORD_SIZE..] == [];
      assert DecodeAll([]) == [];
    } else {
      DecodeAllAppend(s[RECORD_SIZE..], r);
      assert (s + r)[RECORD_SIZE..] == s[RECORD_SIZE..] + r;
      assert (s + r)[..RECORD_SIZE] == s[..RECORD_SIZE];
    }
  }
}
