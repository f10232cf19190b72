/** Inputs whose results the repository's own tests fix byte for byte. */
module KnownAnswers {
  import opened Arith
  import opened Words
  import opened RangeSpec
  import opened CdfSpec
  import opened Rtp
  import opened Srtp

  // ---------------------------------------------------------------- headers and vectors

  lemma SpeechHeader()
    ensures EncodeHeader(RtpHeader(true, 120, 1, 0, 0x12345678, None, None))
         == [0x90, 0xf8, 0x00, 0x01, 0x00, 0x00, 0x00, 0x00, 0x12, 0x34, 0x56, 0x78, 0xde, 0xbe, 0x00, 0x00]
  {
  }

  lemma ComfortNoiseHeader()
    ensures EncodeHeader(RtpHeader(false, 120, 2, 320, 0x12345678, Some(0x30010000), None))
         == [0x90, 0x78, 0x00, 0x02, 0x00, 0x00, 0x01, 0x40, 0x12, 0x34, 0x56, 0x78, 0xde, 0xbe, 0x00, 0x01, 0x30, 0x01, 0x00, 0x00]
  {
    assert Be32(0x30010000) == [0x30, 0x01, 0x00, 0x00];
  }

  /** The only packet of an access unit, with nothing but the frame information, an offset of 29 and transport number 0x0c3f. */
  lemma VideoHeader()
    ensures EncodeHeader(RtpHeader(true, 97, 1, 0x0001_bdc8, 0x49c5_fb8c, None, Some(VideoExtension(9, None, 0, 29, 0x0c3f))))
         == [0x90, 0xe1, 0x00, 0x01, 0x00, 0x01, 0xbd, 0xc8, 0x49, 0xc5, 0xfb, 0x8c, 0xde, 0xbe, 0x00, 0x03,
             0x30, 0x09, 0x51, 0x00, 0x00, 0x61, 0x00, 0x1d, 0x91, 0x0c, 0x3f, 0x00]
  {
    hide EncodeVideo, EncodeHeader, Be16, Be32;
    VideoBytes();
    var h := RtpHeader(true, 97, 1, 0x0001_bdc8, 0x49c5_fb8c, None, Some(VideoExtension(9, None, 0, 29, 0x0c3f)));
    Fixed(h);
    VideoFixed();
    assert ExtensionBytes(h) == EncodeVideo(h.video.value);
  }

  /** The sixteen bytes before the extension. */
  function FixedBytes(h: RtpHeader, words: nat): seq<u8>
    requires words <= 4
  {
    [0x90, h.payloadType % 0x80 + (if h.marker then 0x80 else 0)] + Be16(h.sequenceNumber) + Be32(h.timestamp) + Be32(h.ssrc) + Be16(PROFILE) + Be16(words)
  }

  lemma Fixed(h: RtpHeader)
    ensures EncodeHeader(h) == FixedBytes(h, |ExtensionBytes(h)| / 4) + ExtensionBytes(h)
  {
    hide ExtensionBytes, Be16, Be32;
  }

  lemma VideoFixed()
    ensures FixedBytes(RtpHeader(true, 97, 1, 0x0001_bdc8, 0x49c5_fb8c, None, Some(VideoExtension(9, None, 0, 29, 0x0c3f))), 3)
         == [0x90, 0xe1, 0x00, 0x01, 0x00, 0x01, 0xbd, 0xc8, 0x49, 0xc5, 0xfb, 0x8c, 0xde, 0xbe, 0x00, 0x03]
  {
    assert Be32(0x0001_bdc8) == [0x00, 0x01, 0xbd, 0xc8] && Be32(0x49c5_fb8c) == [0x49, 0xc5, 0xfb, 0x8c];
  }

  lemma VideoBytes()
    ensures EncodeVideo(VideoExtension(9, None, 0, 29, 0x0c3f)) == [0x30, 0x09, 0x51, 0x00, 0x00, 0x61, 0x00, 0x1d, 0x91, 0x0c, 0x3f, 0x00]
  {
    assert Repeat(0, 1) == Repeat(0, 0) + [0] == [0];
  }

  const PeerSalt: Salt := [0x10, 0xfb, 0x81, 0x33, 0xef, 0xf7, 0x63, 0x9c, 0xc0, 0xd0, 0x67, 0x88, 0xf4, 0x9c]

  /** The vector of packet 7 of a call. */
  lemma Vector()
    ensures Iv(PeerSalt, 0x12345678, 0, 7)
         == [0x10, 0xfb, 0x81, 0x33, 0xfd, 0xc3, 0x35, 0xe4, 0xc0, 0xd0, 0x67, 0x88, 0xf4, 0x9b, 0x00, 0x00]
  {
    hide Xor8, ByteAt, PacketIndex;
    var index := PacketIndex(0, 7);
    SsrcBytes(0x12345678);
    CounterBytes(0, 7);
    MaskedBytes();
    Xor8Zero(0xc0);
    Xor8Zero(0xd0);
    Xor8Zero(0x67);
    Xor8Zero(0x88);
    Xor8Zero(0xf4);
    assert IvByte(PeerSalt, 0x12345678, index, 4) == 0xfd && IvByte(PeerSalt, 0x12345678, index, 5) == 0xc3;
    assert IvByte(PeerSalt, 0x12345678, index, 6) == 0x35 && IvByte(PeerSalt, 0x12345678, index, 7) == 0xe4;
    assert IvByte(PeerSalt, 0x12345678, index, 8) == 0xc0 && IvByte(PeerSalt, 0x12345678, index, 9) == 0xd0;
    assert IvByte(PeerSalt, 0x12345678, index, 10) == 0x67 && IvByte(PeerSalt, 0x12345678, index, 11) == 0x88;
    assert IvByte(PeerSalt, 0x12345678, index, 12) == 0xf4 && IvByte(PeerSalt, 0x12345678, index, 13) == 0x9b;
  }

  lemma MaskedBytes()
    ensures Xor8(0xef, 0x12) == 0xfd && Xor8(0xf7, 0x34) == 0xc3 && Xor8(0x63, 0x56) == 0x35 && Xor8(0x9c, 0x78) == 0xe4 && Xor8(0x9c, 7) == 0x9b
  {
    Pow2Values();
    assert Xor(0xef, 0x12, 8) == 0xfd;
    assert Xor(0xf7, 0x34, 8) == 0xc3;
    assert Xor(0x63, 0x56, 8) == 0x35;
    assert Xor(0x9c, 0x78, 8) == 0xe4;
    assert Xor(0x9c, 7, 8) == 0x9b;
  }

  // ---------------------------------------------------------------- the range decoder

  const Table: seq<u8> := [255, 200, 150, 90, 30, 0]

  /** A stream that starts like the script of the decoder's tests. */
  predicate Script(buf: seq<u8>) { |buf| >= 4 && buf[0] == 0xc3 && buf[1] == 0x32 && buf[2] == 0xb6 && buf[3] == 0x59 }

  lemma ScriptStart(buf: seq<u8>)
    requires Script(buf)
    ensures NewDec(buf).rng == TOP && NewDec(buf).val == 510043347
  {
    hide DecNormalize;
    var d := Dec(buf, 0, 0, 0, 9, 1, 0x80, 30, 0, 0xc3, false);
    Normed(d);
    var d1 := Dec(buf, 0, 0, 0, 17, 2, 0x8000, 7782, 0, 0x32, false);
    Normed(d1);
    var d2 := Dec(buf, 0, 0, 0, 25, 3, 0x80_0000, 1992356, 0, 0xb6, false);
    Normed(d2);
    AlreadyNormal(Dec(buf, 0, 0, 0, 33, 4, TOP, 510043347, 0, 0x59, false));
  }

  lemma Normed(d: Dec)
    requires 0 < d.rng <= BOT
    ensures DecNormalize(d) == DecNormalize(DecNormStep(d))
  {
  }

  lemma Eighths(x: nat)
    ensures Shr(x, 8) == x / 0x100
  {
    ShrIsQuotient(x, 8);
    Pow2Values();
  }

  /** Its first two symbols are 4 and 3. */
  lemma FirstSymbols(buf: seq<u8>)
    requires Script(buf)
    ensures IcdfTable(Table, 8)
    ensures DecodeIcdf(NewDec(buf), Table, 8).1 == 4
    ensures DecodeIcdf(DecodeIcdf(NewDec(buf), Table, 8).0, Table, 8).1 == 3
  {
    hide NewDec, Shr, Times, DecNormalize, Script;
    Pow2Values();
    var d := NewDec(buf);
    ScriptStart(buf);
    Eighths(d.rng);
    Found(d.val, 0x80_0000, 4);
    IcdfCell(d, Table, 8);
    var d1 := DecodeIcdf(d, Table, 8).0;
    TimesIs(0x80_0000, 30);
    TimesIs(0x80_0000, 90);
    AlreadyNormal(d.(val := 258385107, rng := 503316480));
    assert d1.val == 258385107 && d1.rng == 503316480;
    Eighths(d1.rng);
    Found(d1.val, 1966080, 3);
  }

  lemma AlreadyNormal(d: Dec)
    requires d.rng > BOT
    ensures DecNormalize(d) == d
  {
  }

  lemma Found(val: nat, r: nat, k: nat)
    requires k < 6 && val >= r * Table[k] && forall i :: 0 <= i < k ==> val < r * Table[i]
    ensures IcdfIndex(val, r, Table, 0) == k
  {
    hide Times;
    forall i | 0 <= i <= k ensures Times(r, Table[i]) == r * Table[i] { TimesIs(r, Table[i]); }
  }
}
