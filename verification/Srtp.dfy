/** Payload encryption, its initialisation vector, and the rollover counters of both ends (RFC 3711 section 3.3.1). */
module Srtp {
  import opened Words
  import opened Arith

  const HALF := 0x8000
  const CYCLE := 0x1_0000

  // ---------------------------------------------------------------- exclusive or

  function Xor(a: nat, b: nat, n: nat): (r: nat)
    ensures r < Pow2(n)
  {
    if n == 0 then 0 else (if a % 2 != b % 2 then 1 else 0) + 2 * Xor(a / 2, b / 2, n - 1)
  }

  function Xor8(a: u8, b: u8): u8
  {
    Pow2Values();
    Xor(a, b, 8)
  }

  lemma {:induction false} XorTwice(a: nat, b: nat, n: nat)
    requires a < Pow2(n)
    ensures Xor(Xor(a, b, n), b, n) == a
  {
    if n > 0 {
      XorTwice(a / 2, b / 2, n - 1);
      assert Xor(a, b, n) / 2 == Xor(a / 2, b / 2, n - 1);
    }
  }

  lemma {:induction false} XorComm(a: nat, b: nat, n: nat)
    ensures Xor(a, b, n) == Xor(b, a, n)
  {
    if n > 0 { XorComm(a / 2, b / 2, n - 1); }
  }

  /** Bit k of x, from the low end. */
  function Bit(x: nat, k: nat): bool { Shr(x, k) % 2 == 1 }

  /** A bit is set exactly where one of the two is and the other is not. */
  lemma {:induction false} XorBits(a: nat, b: nat, n: nat, k: nat)
    requires k < n
    ensures Bit(Xor(a, b, n), k) <==> Bit(a, k) != Bit(b, k)
  {
    assert Xor(a, b, n) / 2 == Xor(a / 2, b / 2, n - 1);
    if k > 0 { XorBits(a / 2, b / 2, n - 1, k - 1); }
  }

  lemma {:induction false} XorZero(a: nat, n: nat)
    requires a < Pow2(n)
    ensures Xor(a, 0, n) == Xor(0, a, n) == a
  {
    if n > 0 { XorZero(a / 2, n - 1); }
  }

  /** What is masked by the same byte differs when it differs. */
  lemma XorCancels(m: u8, a: u8, b: u8)
    requires Xor8(m, a) == Xor8(m, b)
    ensures a == b
  {
    Pow2Values();
    XorComm(m, a, 8);
    XorComm(m, b, 8);
    XorTwice(a, m, 8);
    XorTwice(b, m, 8);
  }

  // ---------------------------------------------------------------- initialisation vector

  type Salt = s: seq<u8> | |s| == 14 witness [0, 0, 0, 0, 0, 0, 0, 0, 0, 0, 0, 0, 0, 0]

  datatype Keys = Keys(cipherKey: seq<u8>, salt: Salt, authKey: seq<u8>)

  /** Byte k of a big-endian word of `width` bytes. */
  function ByteAt(x: nat, width: nat, k: nat): u8
    requires k < width
  {
    if width - k == 1 then x % 0x100 else ByteAt(x / 0x100, width - 1, k)
  }

  function PacketIndex(roc: u32, seqNo: u16): nat { roc * CYCLE + seqNo }

  /** Byte i of the vector: salt, then SSRC over bytes 4 to 7 and the 48-bit index over bytes 8 to 13. */
  function IvByte(salt: Salt, ssrc: u32, index: nat, i: nat): u8
    requires i < 16
  {
    if i >= 14 then 0
    else if i < 4 then salt[i]
    else if i < 8 then Xor8(salt[i], ByteAt(ssrc, 4, i - 4))
    else Xor8(salt[i], ByteAt(index, 6, i - 8))
  }

  function Iv(salt: Salt, ssrc: u32, roc: u32, seqNo: u16): (iv: seq<u8>)
    ensures |iv| == 16
  {
    seq(16, i requires 0 <= i < 16 => IvByte(salt, ssrc, PacketIndex(roc, seqNo), i))
  }

  method BuildE2eRtpIV(salt: Salt, ssrc: u32, roc: u32, seqNo: u16) returns (iv: seq<u8>)
    ensures iv == Iv(salt, ssrc, roc, seqNo)
  {
    hide Xor8, ByteAt, IvByte;
    var buf := new u8[16](_ => 0);
    for i := 0 to 14
      invariant forall k :: 0 <= k < i ==> buf[k] == salt[k]
      invariant forall k :: i <= k < 16 ==> buf[k] == 0
    {
      buf[i] := salt[i];
    }
    XorSsrc(buf, salt, ssrc);
    var packetIndex: int := roc * CYCLE + seqNo;
    XorIndex(buf, salt, packetIndex);
    iv := buf[..];
    IvOf(iv, salt, ssrc, packetIndex);
  }

  method XorSsrc(buf: array<u8>, ghost salt: Salt, ssrc: u32)
    requires buf.Length == 16 && forall k :: 0 <= k < 14 ==> buf[k] == salt[k]
    modifies buf
    ensures forall k :: 0 <= k < 16 ==> buf[k] == if 4 <= k < 8 then Xor8(salt[k], ByteAt(ssrc, 4, k - 4)) else old(buf[k])
  {
    hide Xor8, ByteAt;
    SsrcBytes(ssrc);
    buf[4] := Xor8(buf[4], ssrc / 0x100_0000);
    buf[5] := Xor8(buf[5], ssrc / 0x1_0000 % 0x100);
    buf[6] := Xor8(buf[6], ssrc / 0x100 % 0x100);
    buf[7] := Xor8(buf[7], ssrc % 0x100);
  }

  method XorIndex(buf: array<u8>, ghost salt: Salt, packetIndex: nat)
    requires buf.Length == 16 && packetIndex < 0x1_0000_0000_0000 && forall k :: 8 <= k < 14 ==> buf[k] == salt[k]
    modifies buf
    ensures forall k :: 0 <= k < 16 ==> buf[k] == if 8 <= k < 14 then Xor8(salt[k], ByteAt(packetIndex, 6, k - 8)) else old(buf[k])
  {
    hide Xor8, ByteAt;
    var hi16, lo32 := packetIndex / 0x1_0000_0000 % CYCLE, packetIndex % 0x1_0000_0000;
    IndexBytes(packetIndex);
    buf[8] := Xor8(buf[8], hi16 / 0x100);
    buf[9] := Xor8(buf[9], hi16 % 0x100);
    buf[10] := Xor8(buf[10], lo32 / 0x100_0000);
    buf[11] := Xor8(buf[11], lo32 / 0x1_0000 % 0x100);
    buf[12] := Xor8(buf[12], lo32 / 0x100 % 0x100);
    buf[13] := Xor8(buf[13], lo32 % 0x100);
  }

  /** The sixteen bytes one by one. */
  lemma IvOf(iv: seq<u8>, salt: Salt, ssrc: u32, index: nat)
    requires |iv| == 16 && iv[14] == iv[15] == 0
    requires forall i :: 0 <= i < 4 ==> iv[i] == salt[i]
    requires forall i :: 4 <= i < 8 ==> iv[i] == Xor8(salt[i], ByteAt(ssrc, 4, i - 4))
    requires forall i :: 8 <= i < 14 ==> iv[i] == Xor8(salt[i], ByteAt(index, 6, i - 8))
    ensures forall i :: 0 <= i < 16 ==> iv[i] == IvByte(salt, ssrc, index, i)
  {
    hide Xor8, ByteAt;
  }

  lemma SsrcBytes(x: u32)
    ensures ByteAt(x, 4, 0) == x / 0x100_0000 && ByteAt(x, 4, 1) == x / 0x1_0000 % 0x100
    ensures ByteAt(x, 4, 2) == x / 0x100 % 0x100 && ByteAt(x, 4, 3) == x % 0x100
  {
    var a, b, c := x / 0x100, x / 0x1_0000, x / 0x100_0000;
    assert a / 0x100 == b && b / 0x100 == c;
    ByteUnfolds(x, 4);
    ByteUnfolds(a, 3);
    ByteUnfolds(b, 2);
    ByteUnfolds(c, 1);
  }

  /** Last byte, and the others as bytes of what is above it. */
  lemma ByteUnfolds(x: nat, width: nat)
    requires width > 0
    ensures ByteAt(x, width, width - 1) == x % 0x100
    ensures forall k :: 0 <= k < width - 1 ==> ByteAt(x, width, k) == ByteAt(x / 0x100, width - 1, k)
  {
  }

  lemma IndexBytes(x: nat)
    requires x < 0x1_0000_0000_0000
    ensures var hi, lo := x / 0x1_0000_0000 % CYCLE, x % 0x1_0000_0000;
      && ByteAt(x, 6, 0) == hi / 0x100 && ByteAt(x, 6, 1) == hi % 0x100
      && ByteAt(x, 6, 2) == lo / 0x100_0000 && ByteAt(x, 6, 3) == lo / 0x1_0000 % 0x100
      && ByteAt(x, 6, 4) == lo / 0x100 % 0x100 && ByteAt(x, 6, 5) == lo % 0x100
  {
    hide ByteAt;
    hide PacketIndex;
    var x1, x2, x3 := x / 0x100, x / 0x1_0000, x / 0x100_0000;
    var x4, x5, lo := x / 0x1_0000_0000, x / 0x100_0000_0000, x % 0x1_0000_0000;
    Shifted(x);
    ByteUnfolds(x, 6);
    ByteUnfolds(x1, 5);
    ByteUnfolds(x2, 4);
    ByteUnfolds(x3, 3);
    ByteUnfolds(x4, 2);
    ByteUnfolds(x5, 1);
    LowWord(x4, lo);
    assert x4 < CYCLE;
  }

  lemma Shifted(x: nat)
    ensures x / 0x100 / 0x100 == x / 0x1_0000 && x / 0x1_0000 / 0x100 == x / 0x100_0000
    ensures x / 0x100_0000 / 0x100 == x / 0x1_0000_0000 && x / 0x1_0000_0000 / 0x100 == x / 0x100_0000_0000
  {
  }

  /** The bytes below the high part do not depend on it. */
  lemma LowWord(hi: nat, lo: nat)
    requires lo < 0x1_0000_0000
    ensures var x := 0x1_0000_0000 * hi + lo;
      && x % 0x100 == lo % 0x100 && x / 0x100 % 0x100 == lo / 0x100 % 0x100
      && x / 0x1_0000 % 0x100 == lo / 0x1_0000 % 0x100 && x / 0x100_0000 % 0x100 == lo / 0x100_0000
  {
    var x := 0x1_0000_0000 * hi + lo;
    Shifted(x);
    Shifted(lo);
    DivModUnique(x, 0x100, 0x100_0000 * hi + lo / 0x100, lo % 0x100);
    DivModUnique(x / 0x100, 0x100, 0x1_0000 * hi + lo / 0x1_0000, lo / 0x100 % 0x100);
    DivModUnique(x / 0x1_0000, 0x100, 0x100 * hi + lo / 0x100_0000, lo / 0x1_0000 % 0x100);
    DivModUnique(x / 0x100_0000, 0x100, hi, lo / 0x100_0000);
  }

  /** Equal bytes, equal words. */
  lemma {:induction false} BytesDetermine(x: nat, y: nat, width: nat)
    requires width > 0 && forall k :: 0 <= k < width ==> ByteAt(x, width, k) == ByteAt(y, width, k)
    ensures x % Pow2(8 * width) == y % Pow2(8 * width)
    decreases width
  {
    ByteUnfolds(x, width);
    ByteUnfolds(y, width);
    if width == 1 {
      Pow2Values();
    } else {
      var x1, y1, w1 := x / 0x100, y / 0x100, width - 1;
      forall k | 0 <= k < w1 ensures ByteAt(x1, w1, k) == ByteAt(y1, w1, k) {
        assert ByteAt(x, width, k) == ByteAt(y, width, k);
      }
      BytesDetermine(x1, y1, w1);
      LowDigits(x, y, 8 * (width - 1));
    }
  }

  lemma LowDigits(x: nat, y: nat, n: nat)
    requires x % 0x100 == y % 0x100 && (x / 0x100) % Pow2(n) == (y / 0x100) % Pow2(n)
    ensures x % Pow2(n + 8) == y % Pow2(n + 8)
  {
    hide Pow2, Low, Shr, Shl;
    LowIsMod(x, n + 8);
    LowIsMod(y, n + 8);
    ShrLow(x, 8, n);
    ShrLow(y, 8, n);
    LowIsMod(x, 8);
    LowIsMod(y, 8);
    ShrIsQuotient(x, 8);
    ShrIsQuotient(y, 8);
    LowIsMod(x / 0x100, n);
    LowIsMod(y / 0x100, n);
    Pow2Values();
  }

  /** Two packets of one stream never share a vector: all 2^48 indices give different ones. */
  lemma IvDistinct(salt: Salt, ssrc: u32, roc1: u32, seq1: u16, roc2: u32, seq2: u16)
    requires Iv(salt, ssrc, roc1, seq1) == Iv(salt, ssrc, roc2, seq2)
    ensures roc1 == roc2 && seq1 == seq2
  {
    hide Xor8, ByteAt, Pow2;
    var a, b := PacketIndex(roc1, seq1), PacketIndex(roc2, seq2);
    forall k | 0 <= k < 6 ensures ByteAt(a, 6, k) == ByteAt(b, 6, k) {
      assert Iv(salt, ssrc, roc1, seq1)[8 + k] == Xor8(salt[8 + k], ByteAt(a, 6, k));
      assert Iv(salt, ssrc, roc2, seq2)[8 + k] == Xor8(salt[8 + k], ByteAt(b, 6, k));
      XorCancels(salt[8 + k], ByteAt(a, 6, k), ByteAt(b, 6, k));
    }
    BytesDetermine(a, b, 6);
    Pow48();
  }

  lemma Pow48()
    ensures Pow2(48) == 0x1_0000_0000_0000
  {
    Pow2Values();
    assert Pow2(40) == 0x100 * Pow2(32) by {
      assert Pow2(36) == 16 * Pow2(32);
      assert Pow2(40) == 16 * Pow2(36);
    }
    assert Pow2(44) == 16 * Pow2(40);
    assert Pow2(48) == 16 * Pow2(44);
  }

  /** The keystream for a key and vector, taken byte by byte; which cipher produces it does not matter here. */
  type Keystream = (seq<u8>, seq<u8>, nat) -> int

  function StreamByte(ks: Keystream, key: seq<u8>, iv: seq<u8>, i: nat): u8 { ks(key, iv, i) % 0x100 }

  function CryptPayload(ks: Keystream, keys: Keys, ssrc: u32, seqNo: u16, roc: u32, payload: seq<u8>): (out: seq<u8>)
    ensures |out| == |payload|
  {
    var iv := Iv(keys.salt, ssrc, roc, seqNo);
    seq(|payload|, i requires 0 <= i < |payload| => Xor8(payload[i], StreamByte(ks, keys.cipherKey, iv, i)))
  }

  /** Encryption undoes itself under the same index. */
  lemma CryptTwice(ks: Keystream, keys: Keys, ssrc: u32, seqNo: u16, roc: u32, payload: seq<u8>)
    ensures CryptPayload(ks, keys, ssrc, seqNo, roc, CryptPayload(ks, keys, ssrc, seqNo, roc, payload)) == payload
  {
    Pow2Values();
    var once := CryptPayload(ks, keys, ssrc, seqNo, roc, payload);
    var iv := Iv(keys.salt, ssrc, roc, seqNo);
    forall i | 0 <= i < |payload|
      ensures Xor8(once[i], StreamByte(ks, keys.cipherKey, iv, i)) == payload[i]
    {
      XorTwice(payload[i], StreamByte(ks, keys.cipherKey, iv, i), 8);
    }
  }

  /** Bit by bit, a protected byte differs from the clear one exactly where the keystream has a one. */
  lemma CryptBits(ks: Keystream, keys: Keys, ssrc: u32, seqNo: u16, roc: u32, payload: seq<u8>, i: nat, k: nat)
    requires i < |payload| && k < 8
    ensures Bit(CryptPayload(ks, keys, ssrc, seqNo, roc, payload)[i], k)
      <==> Bit(payload[i], k) != Bit(StreamByte(ks, keys.cipherKey, Iv(keys.salt, ssrc, roc, seqNo), i), k)
  {
    XorBits(payload[i], StreamByte(ks, keys.cipherKey, Iv(keys.salt, ssrc, roc, seqNo), i), 8, k);
  }

  /** Under a keystream of zeros the payload goes out as it is. */
  lemma ZeroKeystream(keys: Keys, ssrc: u32, seqNo: u16, roc: u32, payload: seq<u8>)
    ensures CryptPayload((_, _, _) => 0, keys, ssrc, seqNo, roc, payload) == payload
  {
    Pow2Values();
    forall i | 0 <= i < |payload| ensures Xor8(payload[i], 0) == payload[i] { Xor8Zero(payload[i]); }
  }

  const ZeroSalt: Salt := [0, 0, 0, 0, 0, 0, 0, 0, 0, 0, 0, 0, 0, 0]

  /** With a salt of zeros the vector is four zeros, the SSRC, the counter and the sequence number in network order, and two zeros. */
  lemma ZeroSaltIv(ssrc: u32, roc: u32, seqNo: u16)
    ensures Iv(ZeroSalt, ssrc, roc, seqNo) == [
      0, 0, 0, 0,
      ssrc / 0x100_0000, ssrc / 0x1_0000 % 0x100, ssrc / 0x100 % 0x100, ssrc % 0x100,
      roc / 0x100_0000, roc / 0x1_0000 % 0x100, roc / 0x100 % 0x100, roc % 0x100,
      seqNo / 0x100, seqNo % 0x100, 0, 0]
  {
    hide Xor8, ByteAt;
    forall x: u8 ensures Xor8(0, x) == x { Xor8Zero(x); }
    SsrcBytes(ssrc);
    CounterBytes(roc, seqNo);
  }

  lemma Xor8Zero(x: u8)
    ensures Xor8(x, 0) == Xor8(0, x) == x
  {
    Pow2Values();
    XorZero(x, 8);
  }

  /** Any other salt turns over exactly the bits it has set. */
  lemma SaltMasks(salt: Salt, ssrc: u32, roc: u32, seqNo: u16, i: nat, k: nat)
    requires i < 14 && k < 8
    ensures Bit(Iv(salt, ssrc, roc, seqNo)[i], k) <==> Bit(salt[i], k) != Bit(Iv(ZeroSalt, ssrc, roc, seqNo)[i], k)
  {
    hide ByteAt, Shr, Xor;
    var x := if i < 4 then 0 else if i < 8 then ByteAt(ssrc, 4, i - 4) else ByteAt(PacketIndex(roc, seqNo), 6, i - 8);
    ZeroBit(k);
    Pow2Values();
    XorZero(x, 8);
    XorBits(salt[i], x, 8, k);
  }

  lemma {:induction false} ZeroBit(k: nat)
    ensures !Bit(0, k)
  {
    if k > 0 { ZeroBit(k - 1); }
  }

  /** The six bytes of a packet index: four of the counter, two of the number. */
  lemma CounterBytes(roc: u32, seqNo: u16)
    ensures var x := PacketIndex(roc, seqNo);
      && ByteAt(x, 6, 0) == roc / 0x100_0000 && ByteAt(x, 6, 1) == roc / 0x1_0000 % 0x100
      && ByteAt(x, 6, 2) == roc / 0x100 % 0x100 && ByteAt(x, 6, 3) == roc % 0x100
      && ByteAt(x, 6, 4) == seqNo / 0x100 && ByteAt(x, 6, 5) == seqNo % 0x100
  {
    hide ByteAt;
    var x := PacketIndex(roc, seqNo);
    var hi, lo := roc / CYCLE, roc % CYCLE;
    DivModUnique(x, 0x1_0000_0000, hi, CYCLE * lo + seqNo);
    IndexBytes(x);
    DivModUnique(CYCLE * lo + seqNo, CYCLE, lo, seqNo);
    LowHalf(lo, seqNo);
    WordHalves(roc, hi, lo);
  }

  lemma LowHalf(hi: u16, lo: u16)
    ensures var x := CYCLE * hi + lo;
      && x / 0x100_0000 == hi / 0x100 && x / CYCLE % 0x100 == hi % 0x100 && x / 0x100 % 0x100 == lo / 0x100 && x % 0x100 == lo % 0x100
  {
    var x := CYCLE * hi + lo;
    DivModUnique(x, 0x100_0000, hi / 0x100, CYCLE * (hi % 0x100) + lo);
    DivModUnique(x, CYCLE, hi, lo);
    DivModUnique(x, 0x100, 0x100 * hi + lo / 0x100, lo % 0x100);
    DivModUnique(0x100 * hi + lo / 0x100, 0x100, hi, lo / 0x100);
  }

  lemma WordHalves(x: u32, hi: u16, lo: u16)
    requires x == CYCLE * hi + lo
    ensures x / 0x100_0000 == hi / 0x100 && x / CYCLE % 0x100 == hi % 0x100 && x / 0x100 % 0x100 == lo / 0x100 && x % 0x100 == lo % 0x100
  {
    LowHalf(hi, lo);
  }

  // ---------------------------------------------------------------- rollover counters

  function Roc(index: nat): u32 { index / CYCLE % 0x1_0000_0000 }

  function Seq(index: nat): u16 { index % CYCLE }

  /** Send side. */
  class RocTracker {
    var roc: u32
    var lastSeq: u16
    var initialized: bool

    constructor ()
      ensures !initialized && roc == 0
    {
      roc, lastSeq, initialized := 0, 0, false;
    }

    /** The tracker stands at packet index `last`. */
    ghost predicate At(last: nat)
      reads this
    {
      initialized && roc == Roc(last) && lastSeq == Seq(last)
    }

    /** The next packet of the stream is number `index`. */
    ghost predicate Awaits(index: nat)
      reads this
    {
      (!initialized && roc == 0 && index < CYCLE) || (index > 0 && At(index - 1))
    }

    method Advance(seqNo: u16) returns (r: u32)
      modifies this
      ensures !old(initialized) ==> initialized && roc == old(roc) == r && lastSeq == seqNo
      ensures initialized && lastSeq == seqNo && r == roc
      ensures old(initialized) ==> roc == if seqNo - old(lastSeq) < -0x8000 then (old(roc) + 1) % 0x1_0000_0000 else old(roc)
    {
      if !initialized {
        lastSeq, initialized := seqNo, true;
        return roc;
      }
      if seqNo - lastSeq < -0x8000 { roc := (roc + 1) % 0x1_0000_0000; }
      lastSeq := seqNo;
      r := roc;
    }
  }

  /** A fresh tracker given a first number stands there; given the next number it stands one further. */
  method AdvanceNext(t: RocTracker, ghost index: nat, seqNo: u16) returns (r: u32)
    requires seqNo == Seq(index)
    requires t.Awaits(index)
    modifies t
    ensures t.At(index) && r == Roc(index) && t.Awaits(index + 1)
  {
    NextIndex(index);
    r := t.Advance(seqNo);
  }

  lemma NextIndex(index: nat)
    ensures index < CYCLE ==> Roc(index) == 0 && Seq(index) == index
    ensures index > 0 ==> Roc(index) == if Seq(index) - Seq(index - 1) < -0x8000 then (Roc(index - 1) + 1) % 0x1_0000_0000 else Roc(index - 1)
  {
    if index > 0 {
      var q, r := (index - 1) / CYCLE, (index - 1) % CYCLE;
      if r == CYCLE - 1 { DivModUnique(index, CYCLE, q + 1, 0); } else { DivModUnique(index, CYCLE, q, r + 1); }
      NextCount(q);
    }
  }

  lemma NextCount(q: nat)
    ensures (q + 1) % 0x1_0000_0000 == (q % 0x1_0000_0000 + 1) % 0x1_0000_0000
  {
    var a, b := q / 0x1_0000_0000, q % 0x1_0000_0000;
    if b == 0xFFFF_FFFF {
      DivModUnique(q + 1, 0x1_0000_0000, a + 1, 0);
    } else {
      DivModUnique(q + 1, 0x1_0000_0000, a, b + 1);
    }
  }

  /** The receiver's guess for seqNo when the highest packet so far had counter roc and number high. */
  function Guess(roc: u32, high: u16, seqNo: u16): u32
  {
    if high < HALF then
      if seqNo - high > HALF then (roc - 1) % 0x1_0000_0000 else roc
    else
      if high - seqNo > HALF then (roc + 1) % 0x1_0000_0000 else roc
  }

  /** Indices the guess is right for, around the highest one seen. */
  predicate InWindow(highest: nat, index: nat)
  {
    if Seq(highest) < HALF then highest - HALF < index <= highest + HALF
    else highest - HALF <= index < highest + HALF
  }

  const SPACE := 0x1_0000_0000_0000

  /** The guess is the sender's counter exactly for the indices of the window, taken round the ends of the 48-bit space. */
  lemma GuessExact(highest: nat, index: nat)
    requires index < SPACE && highest < SPACE
    ensures Guess(Roc(highest), Seq(highest), Seq(index)) == Roc(index)
      <==> InWindow(highest, index) || InWindow(highest + SPACE, index) || InWindow(highest, index + SPACE)
  {
    var q, r := highest / CYCLE, highest % CYCLE;
    var p, s := index / CYCLE, index % CYCLE;
    assert highest == CYCLE * q + r && index == CYCLE * p + s && q < 0x1_0000_0000 && p < 0x1_0000_0000;
    SmallMod(q);
    SmallMod(p);
    DivModUnique(highest + SPACE, CYCLE, q + 0x1_0000_0000, r);
  }

  lemma SmallMod(x: nat)
    requires x < 0x1_0000_0000
    ensures x % 0x1_0000_0000 == x && (x + 1) % 0x1_0000_0000 == (if x == 0xFFFF_FFFF then 0 else x + 1)
    ensures (x - 1) % 0x1_0000_0000 == (if x == 0 then 0xFFFF_FFFF else x - 1)
  {
    if x == 0xFFFF_FFFF { DivModUnique(x + 1, 0x1_0000_0000, 1, 0); } else { DivModUnique(x + 1, 0x1_0000_0000, 0, x + 1); }
    if x == 0 { DivModUnique(x - 1, 0x1_0000_0000, -1, 0xFFFF_FFFF); } else { DivModUnique(x - 1, 0x1_0000_0000, 0, x - 1); }
  }

  /** Receive side. */
  class RecvRocTracker {
    var roc: u32
    var sL: u16
    var initialized: bool

    constructor ()
      ensures !initialized && roc == 0
    {
      roc, sL, initialized := 0, 0, false;
    }

    /** The highest packet index delivered so far. */
    ghost predicate At(highest: nat)
      reads this
    {
      initialized && roc == Roc(highest) && sL == Seq(highest)
    }

    method GuessRoc(seqNo: u16) returns (v: u32)
      modifies this
      ensures initialized
      ensures !old(initialized) ==> v == roc == old(roc) && sL == seqNo
      ensures old(initialized) ==>
        && v == Guess(old(roc), old(sL), seqNo)
        && (roc, sL) == (if v == old(roc) then (old(roc), if seqNo > old(sL) then seqNo else old(sL))
                         else if v == (old(roc) + 1) % 0x1_0000_0000 then (v, seqNo) else (old(roc), old(sL)))
    {
      if !initialized {
        sL, initialized := seqNo, true;
        return roc;
      }
      if sL < 0x8000 {
        if seqNo - sL > 0x8000 { v := (roc - 1) % 0x1_0000_0000; } else { v := roc; }
      } else if sL - seqNo > 0x8000 {
        v := (roc + 1) % 0x1_0000_0000;
      } else {
        v := roc;
      }
      if v == roc {
        if seqNo > sL { sL := seqNo; }
      } else if v == (roc + 1) % 0x1_0000_0000 {
        roc, sL := v, seqNo;
      }
    }
  }

  function Highest(a: nat, b: nat): nat { if a < b then b else a }

  /** After a packet of the window, the receiver stands at the highest index so far. */
  lemma GuessKeepsUp(highest: nat, index: nat)
    requires index < 0x1_0000_0000_0000 && highest < 0x1_0000_0000_0000 && InWindow(highest, index)
    ensures var roc, sL, v := Roc(highest), Seq(highest), Guess(Roc(highest), Seq(highest), Seq(index));
      var top := Highest(highest, index);
      && v == Roc(index)
      && (if v == roc then (roc, if Seq(index) > sL then Seq(index) else sL)
          else if v == (roc + 1) % 0x1_0000_0000 then (v, Seq(index)) else (roc, sL)) == (Roc(top), Seq(top))
  {
    var q, r := highest / CYCLE, highest % CYCLE;
    var p, s := index / CYCLE, index % CYCLE;
    assert highest == CYCLE * q + r && index == CYCLE * p + s && q < 0x1_0000_0000 && p < 0x1_0000_0000;
    SmallMod(q);
    SmallMod(p);
    GuessExact(highest, index);
  }
}
