/** The record types of trace_types.h: checksums, blocks, their order and their 36-byte encoding. */
module TraceTypes {
  import opened Gf2
  import opened Bytes

  const CKSUM_LEN: nat := 20
  const RECORD_SIZE: nat := 36

  type Checksum = c: seq<u8> | |c| == CKSUM_LEN witness seq(CKSUM_LEN, _ => 0)

  /** SHA-1, as an arbitrary function of a byte string. */
  type Hash = seq<u8> -> Checksum

  datatype Block = Block(cksum: Checksum, fileId: u32, size: u32, offset: u64)

  /** The number a checksum spells; memcmp orders checksums by it. */
  function Key(c: Checksum): nat {
    Value(c)
  }

  predicate CksumLess(a: Checksum, b: Checksum) {
    Memcmp(a, b) < 0
  }

  lemma ChecksumOrder(a: Checksum, b: Checksum)
    ensures CksumLess(a, b) <==> Key(a) < Key(b)
    ensures a == b <==> Key(a) == Key(b)
    ensures Key(a) < Pow2(8 * CKSUM_LEN)
  {
    MemcmpOrdersByValue(a, b);
    ValueBound(a);
  }

  predicate SortedByHash(s: seq<Block>) {
    forall i, j :: 0 <= i <= j < |s| ==> Key(s[i].cksum) <= Key(s[j].cksum)
  }

  function SumSizes(s: seq<Block>): nat {
    if s == [] then 0 else SumSizes(s[..|s| - 1]) + s[|s| - 1].size
  }

  /** b is a record of s, but for its file_id. */
  predicate IsRecordOf(b: Block, s: seq<Block>) {
    exists k :: 0 <= k < |s| && b == s[k].(fileId := b.fileId)
  }

  lemma SumSizesAppend(s: seq<Block>, b: Block)
    ensures SumSizes(s + [b]) == SumSizes(s) + b.size
  {
    assert (s + [b])[..|s|] == s;
  }

  /** The parts one after the other. */
  function Flatten(parts: seq<seq<Block>>): seq<Block> {
    if parts == [] then [] else Flatten(parts[..|parts| - 1]) + parts[|parts| - 1]
  }

  lemma FlattenAppend(parts: seq<seq<Block>>, part: seq<Block>)
    ensures Flatten(parts + [part]) == Flatten(parts) + part
  {
    assert (parts + [part])[..|parts|] == parts;
  }

  // ---------- little-endian integers ----------

  /** The n low bytes of v, least significant first. */
  function ToBytes(v: nat, n: nat): (s: seq<u8>)
    ensures |s| == n
  {
    if n == 0 then [] else [v % 256] + ToBytes(v / 256, n - 1)
  }

  function FromBytes(s: seq<u8>): nat {
    if s == [] then 0 else s[0] + 256 * FromBytes(s[1..])
  }

  lemma {:induction false} FromBytesBound(s: seq<u8>)
    ensures FromBytes(s) < Pow2(8 * |s|)
  {
    if s != [] {
      FromBytesBound(s[1..]);
      BytePlace(1, |s| - 1);
    }
  }

  lemma {:induction false} FromToBytes(v: nat, n: nat)
    requires v < Pow2(8 * n)
    ensures FromBytes(ToBytes(v, n)) == v
  {
    if n > 0 {
      BytePlace(1, n - 1);
      FromToBytes(v / 256, n - 1);
      assert ToBytes(v, n)[1..] == ToBytes(v / 256, n - 1);
    }
  }

  lemma {:induction false} ToFromBytes(s: seq<u8>)
    ensures ToBytes(FromBytes(s), |s|) == s
  {
    if s != [] {
      ToFromBytes(s[1..]);
      assert FromBytes(s) / 256 == FromBytes(s[1..]) && FromBytes(s) % 256 == s[0];
    }
  }

  lemma WordBounds()
    ensures Pow2(8 * 4) == TWO_32 && Pow2(8 * 8) == TWO_64
  {
    var e := Eight();
    Pow2Adds(e, e);
    Pow2Adds(2 * e, 2 * e);
    Pow2Adds(4 * e, 4 * e);
  }

  // ---------- block records ----------

  function EncodeBlock(b: Block): (s: seq<u8>)
    ensures |s| == RECORD_SIZE
  {
    b.cksum + ToBytes(b.fileId, 4) + ToBytes(b.size, 4) + ToBytes(b.offset, 8)
  }

  function Word(s: seq<u8>): u32
    requires |s| == 4
  {
    FromBytesBound(s);
    WordBounds();
    FromBytes(s)
  }

  function LongWord(s: seq<u8>): u64
    requires |s| == 8
  {
    FromBytesBound(s);
    WordBounds();
    FromBytes(s)
  }

  function DecodeBlock(s: seq<u8>): Block
    requires |s| == RECORD_SIZE
  {
    Block(s[..20], Word(s[20..24]), Word(s[24..28]), LongWord(s[28..36]))
  }

  lemma DecodeEncode(b: Block)
    ensures DecodeBlock(EncodeBlock(b)) == b
  {
    hide ToBytes, FromBytes, Pow2;
    WordBounds();
    FromToBytes(b.fileId, 4);
    FromToBytes(b.size, 4);
    FromToBytes(b.offset, 8);
    var s := EncodeBlock(b);
    assert s[..20] == b.cksum && s[20..24] == ToBytes(b.fileId, 4);
    assert s[24..28] == ToBytes(b.size, 4) && s[28..36] == ToBytes(b.offset, 8);
  }

  /** The number of four bytes, least significant first. */
  function Four(a: nat, b: nat, c: nat, d: nat): nat {
    a + 0x100 * b + 0x1_0000 * c + 0x100_0000 * d
  }

  /** The layout of a record: 20 bytes of checksum, then file_id, size and offset, least significant byte first. */
  lemma RecordLayout(b: Block)
    ensures var s := EncodeBlock(b);
            && s[..20] == b.cksum
            && b.fileId == Four(s[20], s[21], s[22], s[23])
            && b.size == Four(s[24], s[25], s[26], s[27])
            && b.offset == Four(s[28], s[29], s[30], s[31]) + 0x1_0000_0000 * Four(s[32], s[33], s[34], s[35])
  {
    hide ToBytes, FromBytes, Pow2;
    WordBounds();
    var s := EncodeBlock(b);
    FromToBytes(b.fileId, 4);
    FromToBytes(b.size, 4);
    FromToBytes(b.offset, 8);
    var f, z, o := ToBytes(b.fileId, 4), ToBytes(b.size, 4), ToBytes(b.offset, 8);
    assert s[20..24] == f && s[24..28] == z && s[28..36] == o;
    FourBytes(f);
    FourBytes(z);
    EightBytes(o);
  }

  lemma FourBytes(s: seq<u8>)
    requires |s| >= 4
    ensures FromBytes(s) == Four(s[0], s[1], s[2], s[3]) + 0x1_0000_0000 * FromBytes(s[4..])
    ensures FromBytes([]) == 0
  {
    var a, b, c := s[1..], s[1..][1..], s[1..][1..][1..];
    assert c[1..] == s[4..] && a[0] == s[1] && b[0] == s[2] && c[0] == s[3];
    assert FromBytes(c) == c[0] as nat + 0x100 * FromBytes(c[1..]);
    assert FromBytes(b) == b[0] as nat + 0x100 * FromBytes(c);
    assert FromBytes(a) == a[0] as nat + 0x100 * FromBytes(b);
  }

  lemma EightBytes(s: seq<u8>)
    requires |s| == 8
    ensures FromBytes(s) == Four(s[0], s[1], s[2], s[3]) + 0x1_0000_0000 * Four(s[4], s[5], s[6], s[7])
  {
    hide FromBytes;
    FourBytes(s);
    FourBytes(s[4..]);
    assert s[4..][4..] == [];
  }

  /** In a log record i takes the i-th 36 bytes. */
  lemma {:induction false} LogLayout(bs: seq<Block>, i: nat)
    requires i < |bs|
    ensures EncodeAll(bs)[RECORD_SIZE * i..RECORD_SIZE * i + RECORD_SIZE] == EncodeBlock(bs[i])
  {
    hide EncodeBlock;
    if i > 0 {
      var rest := EncodeAll(bs[1..]);
      LogLayout(bs[1..], i - 1);
      assert EncodeAll(bs)[RECORD_SIZE..] == rest;
      assert EncodeAll(bs)[RECORD_SIZE * i..RECORD_SIZE * i + RECORD_SIZE] ==
             rest[RECORD_SIZE * (i - 1)..RECORD_SIZE * (i - 1) + RECORD_SIZE];
    }
  }

  lemma EncodeDecode(s: seq<u8>)
    requires |s| == RECORD_SIZE
    ensures EncodeBlock(DecodeBlock(s)) == s
  {
    hide ToBytes, FromBytes, Pow2;
    ToFromBytes(s[20..24]);
    ToFromBytes(s[24..28]);
    ToFromBytes(s[28..36]);
  }

  /** The records that a trace holds, one after the other. */
  function DecodeAll(s: seq<u8>): seq<Block>
    requires |s| % RECORD_SIZE == 0
  {
    if s == [] then [] else [DecodeBlock(s[..RECORD_SIZE])] + DecodeAll(s[RECORD_SIZE..])
  }

  function EncodeAll(bs: seq<Block>): (s: seq<u8>)
    ensures |s| == RECORD_SIZE * |bs| && |s| % RECORD_SIZE == 0
  {
    if bs == [] then [] else EncodeBlock(bs[0]) + EncodeAll(bs[1..])
  }

  lemma {:induction false} DecodeEncodeAll(bs: seq<Block>)
    ensures DecodeAll(EncodeAll(bs)) == bs
  {
    hide EncodeBlock, DecodeBlock;
    if bs != [] {
      DecodeEncode(bs[0]);
      DecodeEncodeAll(bs[1..]);
      var s := EncodeAll(bs);
      assert s[..RECORD_SIZE] == EncodeBlock(bs[0]);
      assert s[RECORD_SIZE..] == EncodeAll(bs[1..]);
    }
  }
}
