/** The table-driven rolling fingerprint of rabin.c. */
module Rabin {
  import opened Gf2
  import opened Bytes

  /** Sixty-four bit polynomial with its top bit set. */
  const POLY: u64 := 0xb15e234bd3792f63
  const RABIN_WINDOW_SIZE: nat := 48
  const MSB64: nat := 0x8000_0000_0000_0000

  predicate Normalized(poly: u64) {
    poly >= MSB64
  }

  const TWO_55: nat := 0x80_0000_0000_0000

  /** The exponent 63, as an opaque number: the degree of every normalized polynomial. */
  lemma Degree() returns (d: nat)
    ensures Pow2(d) == MSB64 && Pow2(d + 1) == TWO_64
  {
    var e := Eight();
    Pow2Adds(e, e);
    Pow2Adds(2 * e, 2 * e);
    Pow2Adds(4 * e, 4 * e);
    d := 8 * e - 1;
    assert Pow2(d + 1) == 2 * Pow2(d);
  }

  /** r is the GF(2) remainder of f modulo poly. */
  ghost predicate Remainder(r: nat, f: nat, poly: u64) {
    IsRemainder(r, f, poly, MSB64)
  }

  /** The fingerprint a byte window must have: its big-endian polynomial reduced modulo poly. */
  function Fingerprint(w: seq<u8>, poly: u64): nat {
    Mod(Value(w), poly, MSB64)
  }

  lemma FingerprintIsRemainder(r: nat, w: seq<u8>, poly: u64)
    requires Normalized(poly)
    ensures Remainder(r, Value(w), poly) <==> r == Fingerprint(w, poly)
    ensures Fingerprint(w, poly) < MSB64
  {
    var d := Degree();
    ModIsRemainder(Value(w), poly, MSB64, d);
    if Remainder(r, Value(w), poly) {
      RemainderUnique(r, Fingerprint(w, poly), Value(w), poly, MSB64, d);
    }
  }

  // ---------- one slide, as arithmetic ----------

  /** The new fingerprint from the old one, the incoming byte and the two table entries. */
  function Slid(fp: nat, m: u8, oldEntry: nat, newEntry: nat): nat {
    Xor(fp * 256 % TWO_64 + m, Xor(oldEntry, newEntry)) % MSB64
  }

  /** Shifting out the top nine bits of fp leaves its low 55 bits, moved up one byte. */
  lemma ShiftedOut(fp: nat, m: u8)
    requires fp < MSB64
    ensures var hi := fp / TWO_55; var z := fp % TWO_55 * 256 + m;
            && hi < 256 && z < MSB64
            && fp * 256 + m == hi * MSB64 + z
            && fp * 256 % TWO_64 + m == hi % 2 * MSB64 + z
  {
    var hi, lo := fp / TWO_55, fp % TWO_55;
    assert fp * 256 == (hi / 2) * TWO_64 + (hi % 2 * MSB64 + lo * 256);
  }

  /** Clearing the top bit after the table look-ups leaves the low 55 bits shifted, plus the tables. */
  lemma SlidSplits(fp: nat, m: u8, oldEntry: nat, newEntry: nat)
    requires fp < MSB64 && oldEntry < MSB64 && newEntry < MSB64
    ensures var z := fp % TWO_55 * 256 + m;
            Slid(fp, m, oldEntry, newEntry) == Xor(z, Xor(oldEntry, newEntry)) < MSB64
  {
    hide Xor, Mul;
    var d := Degree();
    ShiftedOut(fp, m);
    var z, top := fp % TWO_55 * 256 + m, fp / TWO_55 % 2;
    var r := Xor(oldEntry, newEntry);
    XorBelow(oldEntry, newEntry, d);
    XorBelow(z, r, d);
    XorDisjoint(top, z, d);
    XorAssociates(top * Pow2(d), z, r);
    XorDisjoint(top, Xor(z, r), d);
  }

  /** Appending a byte to a window whose fingerprint is fp: the top nine bits of fp still need reducing. */
  lemma AppendByte(w: seq<u8>, fp: nat, m: u8, newEntry: nat, poly: u64)
    requires fp < MSB64 && Congruent(Value(w), fp, poly)
    requires Congruent(fp / TWO_55 * MSB64, newEntry, poly)
    ensures Congruent(Value(w + [m]), Xor(newEntry, fp % TWO_55 * 256 + m), poly)
  {
    hide Xor, Mul;
    var d := Degree();
    var e := Eight();
    ShiftedOut(fp, m);
    var hi63, z := fp / TWO_55 * MSB64, fp % TWO_55 * 256 + m;
    ValueAppend(w, m);
    CongruentScale(Value(w), fp, e, poly);
    CongruentReflexive(m, poly);
    CongruentXor(Value(w) * Pow2(e), fp * Pow2(e), m, m, poly);
    XorDisjoint(Value(w), m, e);
    XorDisjoint(fp, m, e);
    XorDisjoint(fp / TWO_55, z, d);
    CongruentReflexive(z, poly);
    CongruentXor(hi63, newEntry, z, z, poly);
    CongruentTransitive(Value(w + [m]), Xor(hi63, z), Xor(newEntry, z), poly);
  }

  /** Dropping the oldest byte of w + [m] adds that byte's ringing. */
  lemma DropByte(w: seq<u8>, m: u8)
    requires |w| > 0
    ensures Xor(w[0] * Pow2(8 * |w|), Value(w + [m])) == Value(w[1..] + [m])
  {
    hide *;
    var t := w[1..] + [m];
    assert w + [m] == [w[0]] + t;
    ValuePrepend(w[0], t);
    ValueBound(t);
    XorCancels(w[0], Value(t), 8 * |w|);
  }

  /** Sliding one byte replaces the remainder of the window by that of the slid window. */
  lemma SlideKeepsRemainder(w: seq<u8>, fp: nat, m: u8, oldEntry: nat, newEntry: nat, poly: u64)
    requires |w| > 0
    requires Remainder(fp, Value(w), poly)
    requires Remainder(oldEntry, w[0] * Pow2(8 * |w|), poly)
    requires Remainder(newEntry, fp / TWO_55 * MSB64, poly)
    ensures Remainder(Slid(fp, m, oldEntry, newEntry), Value(w[1..] + [m]), poly)
  {
    hide Xor, Mul;
    var z := fp % TWO_55 * 256 + m;
    SlidSplits(fp, m, oldEntry, newEntry);
    AppendByte(w, fp, m, newEntry, poly);
    DropByte(w, m);
    CongruentXor(w[0] * Pow2(8 * |w|), oldEntry, Value(w + [m]), Xor(newEntry, z), poly);
    XorAssociates(oldEntry, newEntry, z);
    XorCommutes(Xor(oldEntry, newEntry), z);
  }

  // ---------- the state and its operations ----------

  class RabinState {
    const poly: u64
    const size: nat
    const oldRinging: array<nat>
    const newRinging: array<nat>
    const buf: array<u8>
    var bufptr: nat
    var fingerprint: nat
    ghost var window: seq<u8>  // the last size bytes, oldest first

    /** The i-th oldest byte of the circular buffer, which is filled downwards. */
    function Slot(i: nat): int
      reads this
    {
      if i <= bufptr then bufptr - i else bufptr + size - i
    }

    ghost predicate TablesValid()
      reads this, oldRinging, newRinging
    {
      && Normalized(poly)
      && oldRinging.Length == 256 && newRinging.Length == 256
      && (forall i :: 0 <= i < 256 ==> Remainder(oldRinging[i], i * Pow2(8 * size), poly))
      && (forall i :: 0 <= i < 256 ==> Remainder(newRinging[i], i * MSB64, poly))
    }

    ghost predicate BufferValid()
      reads this, buf
    {
      && size > 0 && buf.Length == size && bufptr < size
      && |window| == size
      && forall i :: 0 <= i < size ==> window[i] == buf[Slot(i)]
    }

    ghost predicate Valid()
      reads this, oldRinging, newRinging, buf
    {
      && oldRinging != newRinging
      && TablesValid() && BufferValid()
      && fingerprint == Fingerprint(window, poly)
    }

    constructor (poly: u64, size: nat)
      requires Normalized(poly) && size > 0
      ensures Valid() && fresh(buf) && fresh(oldRinging) && fresh(newRinging)
      ensures this.poly == poly && this.size == size
      ensures window == seq(size, _ => 0 as u8)
    {
      this.poly, this.size := poly, size;
      oldRinging, newRinging := new nat[256](_ => 0), new nat[256](_ => 0);
      buf := new u8[size](_ => 0);
      new;
      assert size * 8 == 8 * size;
      for i := 0 to 256
        invariant forall k :: 0 <= k < i ==> Remainder(oldRinging[k], k * Pow2(8 * size), poly)
      {
        oldRinging[i] := ShiftReduce(i, size * 8, poly);
      }
      for i := 0 to 256
        invariant forall k :: 0 <= k < 256 ==> Remainder(oldRinging[k], k * Pow2(8 * size), poly)
        invariant forall k :: 0 <= k < i ==> Remainder(newRinging[k], k * MSB64, poly)
      {
        newRinging[i] := ShiftReduce(i * TWO_55, 8, poly);
        var e := Eight();
      }
      Reset();
    }

    method Reset()
      requires TablesValid() && oldRinging != newRinging && size > 0 && buf.Length == size
      modifies this, buf
      ensures Valid()
      ensures window == seq(size, _ => 0 as u8)
    {
      fingerprint := 0;
      bufptr := 0;
      for i := 0 to size
        invariant forall k :: 0 <= k < i ==> buf[k] == 0
        invariant bufptr == 0 && fingerprint == 0
      {
        buf[i] := 0;
      }
      window := seq(size, _ => 0);
      ValueLeadingZeros(size, []);
      assert window + [] == window;
    }

    /** Takes in one byte and returns the fingerprint of the last size bytes. */
    method Slide8(m: u8) returns (r: nat)
      requires Valid()
      modifies this, buf
      ensures Valid()
      ensures window == old(window)[1..] + [m]
      ensures r == fingerprint == Fingerprint(window, poly) < MSB64
    {
      hide Xor, Pow2, Value, Mod;
      FingerprintIsRemainder(fingerprint, window, poly);
      var om := buf[bufptr];
      assert om == window[0] by { assert Slot(0) == bufptr; }
      buf[bufptr] := m;
      if bufptr == 0 {
        bufptr := bufptr + size - 1;
      } else {
        bufptr := bufptr - 1;
      }
      var msb := fingerprint / TWO_55;
      ShiftedOut(fingerprint, m);
      var residual := Xor(oldRinging[om], newRinging[msb]);
      SlideKeepsRemainder(window, fingerprint, m, oldRinging[om], newRinging[msb], poly);
      fingerprint := Xor(fingerprint * 256 % TWO_64 + m, residual) % MSB64;
      window := window[1..] + [m];
      FingerprintIsRemainder(fingerprint, window, poly);
      r := fingerprint;
    }
  }

  /** The inner loop of the two table computations: n doublings of x, each reduced modulo poly. */
  method ShiftReduce(x: nat, n: nat, poly: u64) returns (fingerprint: nat)
    requires Normalized(poly) && x < MSB64
    ensures Remainder(fingerprint, x * Pow2(n), poly)
  {
    hide Xor, Mul, Congruent;
    var d := Degree();
    fingerprint := x;
    CongruentReflexive(x, poly);
    for j := 0 to n
      invariant Remainder(fingerprint, x * Pow2(j), poly)
    {
      ReduceStep(x * Pow2(j), fingerprint, 0, poly, MSB64, d);
      ScaleDoubles(x, j + 1);
      fingerprint := 2 * fingerprint % TWO_64;
      if fingerprint >= MSB64 {
        fingerprint := Xor(fingerprint, poly);
      }
    }
  }

  /** Initialisation refuses a polynomial that is not normalized. */
  method RabinInit(poly: u64, size: nat) returns (s: RabinState?)
    requires size > 0
    ensures s == null <==> !Normalized(poly)
    ensures s != null ==> fresh(s) && s.Valid() && s.poly == poly && s.size == size
    ensures s != null ==> fresh(s.buf) && fresh(s.oldRinging) && fresh(s.newRinging)
    ensures s != null ==> s.window == seq(size, _ => 0 as u8)
  {
    if !Normalized(poly) {
      return null;
    }
    s := new RabinState(poly, size);
  }
}
