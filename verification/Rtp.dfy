/** RTP headers with WhatsApp's extensions, and the two send-side sequencers. */
module Rtp {
  import opened Words
  import opened Arith

  const PT_OPUS: u8 := 120
  const PT_H264: u8 := 97
  const PROFILE: u16 := 0xdebe
  const DTX_WORD: u32 := 0x30010000

  datatype VideoExtension = VideoExtension(mediaFrameInfo: u8, frameNumber: Option<u16>, initialBandwidth: u16, shortOffset: i16, transportSequence: u16)

  datatype RtpHeader = RtpHeader(
    marker: bool, payloadType: u8, sequenceNumber: u16, timestamp: u32, ssrc: u32,
    extensionWord: Option<u32>, video: Option<VideoExtension>)

  function Be16(x: u16): (b: seq<u8>)
    ensures |b| == 2
  {
    [x / 0x100, x % 0x100]
  }

  function Be32(x: u32): (b: seq<u8>)
    ensures |b| == 4
  {
    [x / 0x100_0000, x / 0x1_0000 % 0x100, x / 0x100 % 0x100, x % 0x100]
  }

  function U16At(d: seq<u8>, i: nat): u16
    requires i + 2 <= |d|
  {
    var a: int, b: int := d[i], d[i + 1];
    0x100 * a + b
  }

  function U32At(d: seq<u8>, i: nat): u32
    requires i + 4 <= |d|
  {
    var a: int, b: int, c: int, e: int := d[i], d[i + 1], d[i + 2], d[i + 3];
    0x100_0000 * a + 0x1_0000 * b + 0x100 * c + e
  }

  lemma Be32At(x: u32)
    ensures U32At(Be32(x), 0) == x
  {
    var a := x / 0x100;
    var b := a / 0x100;
    assert x / 0x1_0000 == b && x / 0x100_0000 == b / 0x100;
  }

  /** Two's complement in 16 bits. */
  function Unsigned(x: i16): u16 { if x < 0 then x + 0x1_0000 else x }

  function Signed(x: u16): i16 { if x >= 0x8000 then x - 0x1_0000 else x }

  // ---------------------------------------------------------------- encoding

  /** The elements after the frame information, padded to whole words. */
  function VideoTail(e: VideoExtension): (b: seq<u8>)
    ensures |b| == (if e.frameNumber.Some? then 12 else 10)
  {
    [0x51] + Be16(e.initialBandwidth) + ([0x61] + Be16(Unsigned(e.shortOffset)) + ([0x91] + Be16(e.transportSequence)
      + Repeat(0, if e.frameNumber.Some? then 3 else 1)))
  }

  /** Frame information, bandwidth, offset and transport number, each behind its id and length. */
  function EncodeVideo(e: VideoExtension): (b: seq<u8>)
    ensures |b| == (if e.frameNumber.Some? then 16 else 12)
  {
    (if e.frameNumber.Some? then [0x32] + ([e.mediaFrameInfo] + Be16(e.frameNumber.value)) else [0x30] + [e.mediaFrameInfo]) + VideoTail(e)
  }

  function ExtensionBytes(h: RtpHeader): (b: seq<u8>)
    ensures |b| <= 16 && |b| % 4 == 0
  {
    if h.video.Some? then EncodeVideo(h.video.value)
    else if h.extensionWord.Some? then Be32(h.extensionWord.value)
    else []
  }

  function EncodeHeader(h: RtpHeader): (b: seq<u8>)
    ensures |b| == 16 + |ExtensionBytes(h)|
  {
    var ext := ExtensionBytes(h);
    [0x90, h.payloadType % 0x80 + (if h.marker then 0x80 else 0)] + Be16(h.sequenceNumber) + Be32(h.timestamp) + Be32(h.ssrc)
    + Be16(PROFILE) + Be16(|ext| / 4) + ext
  }

  // ---------------------------------------------------------------- parsing

  /** Header length with CSRC list and extension, or None if the data is malformed or too short for it. */
  function HeaderLength(d: seq<u8>): (n: Option<nat>)
    ensures n.Some? ==> 12 <= n.value <= |d|
  {
    if |d| < 12 || d[0] / 0x40 != 2 then None
    else
      var fixed := 12 + d[0] % 0x10 * 4;
      if |d| < fixed then None
      else if d[0] / 0x10 % 2 == 0 then Some(fixed)
      else if |d| < fixed + 4 then None
      else
        var full := fixed + 4 + U16At(d, fixed + 2) * 4;
        if |d| < full then None else Some(full)
  }

  /** Extension profile and payload. */
  function ProfileAndData(d: seq<u8>): Option<(u16, seq<u8>)>
  {
    if |d| < 12 || d[0] / 0x40 != 2 then None
    else
      var at := 12 + d[0] % 0x10 * 4;
      if |d| < at || d[0] / 0x10 % 2 == 0 || |d| < at + 4 then None
      else
        var end := at + 4 + U16At(d, at + 2) * 4;
        if end > |d| then None else Some((U16At(d, at), d[at + 4..end]))
  }

  /** The two readings of a header agree: the extension ends where the header does, and without the extension bit there is none. */
  lemma HeaderAgrees(d: seq<u8>)
    requires HeaderLength(d).Some?
    ensures var n, fixed := HeaderLength(d).value, 12 + 4 * (d[0] % 0x10);
      if d[0] / 0x10 % 2 == 0 then n == fixed && ProfileAndData(d) == None
      else
        match ProfileAndData(d)
        case None => false
        case Some((profile, ext)) => fixed + 4 <= |d| && n == fixed + 4 + |ext| && profile == U16At(d, fixed) && |ext| % 4 == 0 && ext == d[fixed + 4..n]
  {
  }

  /** What has been seen while walking the one-byte-header elements. */
  datatype Seen = Seen(ext: VideoExtension, info: bool, offset: bool, transport: bool)

  const NothingSeen := Seen(VideoExtension(0, None, 0, 0, 0), false, false, false)

  /** One element; None where its length is not the one its id demands. */
  function Element(s: Seen, id: nat, v: seq<u8>): Option<Seen>
    requires |v| >= 1
  {
    if id == 3 then
      if |v| == 1 then Some(s.(ext := s.ext.(mediaFrameInfo := v[0]), info := true))
      else if |v| == 3 then Some(s.(ext := s.ext.(mediaFrameInfo := v[0], frameNumber := Some(U16At(v, 1))), info := true))
      else None
    else if id == 5 then
      if |v| == 2 then Some(s.(ext := s.ext.(initialBandwidth := U16At(v, 0)))) else None
    else if id == 6 then
      if |v| == 2 then Some(s.(ext := s.ext.(shortOffset := Signed(U16At(v, 0))), offset := true)) else None
    else if id == 9 then
      if |v| == 2 then Some(s.(ext := s.ext.(transportSequence := U16At(v, 0)), transport := true)) else None
    else Some(s)
  }

  function Elements(ext: seq<u8>, s: Seen): Option<Seen>
    decreases |ext|
  {
    if ext == [] then Some(s)
    else if ext[0] == 0 then Elements(ext[1..], s)
    else
      var id, length := ext[0] / 0x10, ext[0] % 0x10 + 1;
      if id == 15 || 1 + length > |ext| then None
      else
        match Element(s, id, ext[1..1 + length])
        case None => None
        case Some(s1) => Elements(ext[1 + length..], s1)
  }

  function ParseVideo(d: seq<u8>): Option<VideoExtension>
  {
    match ProfileAndData(d)
    case None => None
    case Some((profile, ext)) =>
      if profile != PROFILE then None
      else
        match Elements(ext, NothingSeen)
        case None => None
        case Some(s) => if s.info && s.offset && s.transport then Some(s.ext) else None
  }

  /** The element at an offset. */
  lemma ElementsAt(ext: seq<u8>, offset: nat, s: Seen)
    requires offset < |ext|
    ensures var id, length := ext[offset] / 0x10, ext[offset] % 0x10 + 1;
      Elements(ext[offset..], s) ==
        if ext[offset] == 0 then Elements(ext[offset + 1..], s)
        else if id == 15 || offset + 1 + length > |ext| then None
        else
          match Element(s, id, ext[offset + 1..offset + 1 + length])
          case None => None
          case Some(s1) => Elements(ext[offset + 1 + length..], s1)
  {
    hide Element;
    var tail, length := ext[offset..], ext[offset] % 0x10 + 1;
    assert tail[1..] == ext[offset + 1..];
    if offset + 1 + length <= |ext| {
      assert tail[1..1 + length] == ext[offset + 1..offset + 1 + length] && tail[1 + length..] == ext[offset + 1 + length..];
    }
  }

  /** The same walk as a loop over the offset. */
  method ParseWhatsappVideoExtension(data: seq<u8>) returns (r: Option<VideoExtension>)
    ensures r == ParseVideo(data)
  {
    hide Elements, Element, ProfileAndData;
    var pd := ProfileAndData(data);
    if pd.None? || pd.value.0 != PROFILE { return None; }
    var ext := pd.value.1;
    var parsed := NothingSeen;
    var offset := 0;
    assert ext[0..] == ext;
    while offset < |ext|
      invariant 0 <= offset <= |ext| && Elements(ext[offset..], parsed) == Elements(ext, NothingSeen)
    {
      ElementsAt(ext, offset, parsed);
      var header := ext[offset];
      offset := offset + 1;
      if header != 0 {
        var id, length := header / 0x10, header % 0x10 + 1;
        if id == 15 || offset + length > |ext| { return None; }
        var value := ext[offset..offset + length];
        var e := Element(parsed, id, value);
        if e.None? { return None; }
        parsed := e.value;
        offset := offset + length;
      }
    }
    NoElements(ext[offset..], parsed);
    if !parsed.info || !parsed.offset || !parsed.transport { return None; }
    r := Some(parsed.ext);
  }

  lemma NoElements(ext: seq<u8>, s: Seen)
    requires ext == []
    ensures Elements(ext, s) == Some(s)
  {
  }

  function ParseHeader(d: seq<u8>): Option<RtpHeader>
  {
    if HeaderLength(d).None? then None
    else
      Some(RtpHeader(d[1] / 0x80 == 1, d[1] % 0x80, U16At(d, 2), U32At(d, 4), U32At(d, 8), None, ParseVideo(d)))
  }

  // ---------------------------------------------------------------- the parser undoes the encoder

  /** One element in front of others. */
  lemma ElementFirst(header: u8, v: seq<u8>, rest: seq<u8>, s: Seen)
    requires header != 0 && header / 0x10 != 15 && |v| == header % 0x10 + 1 && Element(s, header / 0x10, v).Some?
    ensures Elements([header] + v + rest, s) == Elements(rest, Element(s, header / 0x10, v).value)
  {
    var ext := [header] + v + rest;
    assert ext[1..1 + |v|] == v && ext[1 + |v|..] == rest;
  }

  lemma {:induction false} Padding(n: nat, s: Seen)
    requires n <= 3
    ensures Elements(Repeat(0, n), s) == Some(s)
  {
    if n > 0 {
      assert Repeat(0, n)[0] == 0 by { ZeroRepeat(n); }
      assert Repeat(0, n)[1..] == Repeat(0, n - 1) by { ZeroRepeat(n); ZeroRepeat(n - 1); }
      Padding(n - 1, s);
    }
  }

  lemma {:induction false} ZeroRepeat(n: nat)
    ensures forall i :: 0 <= i < n ==> Repeat(0, n)[i] == 0
  {
    if n > 0 { ZeroRepeat(n - 1); }
  }

  lemma SignedBack(x: i16)
    ensures Signed(Unsigned(x)) == x
  {
  }

  lemma Be16At(x: u16)
    ensures U16At(Be16(x), 0) == x
  {
  }

  lemma TailParses(e: VideoExtension, s: Seen)
    ensures Elements(VideoTail(e), s)
      == Some(Seen(s.ext.(initialBandwidth := e.initialBandwidth, shortOffset := e.shortOffset, transportSequence := e.transportSequence), s.info, true, true))
  {
    hide Elements, Be16;
    var n := if e.frameNumber.Some? then 3 else 1;
    Be16At(e.initialBandwidth);
    Be16At(Unsigned(e.shortOffset));
    SignedBack(e.shortOffset);
    Be16At(e.transportSequence);
    var pad := Repeat(0, n);
    var t3 := [0x91] + Be16(e.transportSequence) + pad;
    var t2 := [0x61] + Be16(Unsigned(e.shortOffset)) + t3;
    var s1 := Element(s, 5, Be16(e.initialBandwidth)).value;
    var s2 := Element(s1, 6, Be16(Unsigned(e.shortOffset))).value;
    var s3 := Element(s2, 9, Be16(e.transportSequence)).value;
    ElementFirst(0x51, Be16(e.initialBandwidth), t2, s);
    ElementFirst(0x61, Be16(Unsigned(e.shortOffset)), t3, s1);
    ElementFirst(0x91, Be16(e.transportSequence), pad, s2);
    Padding(n, s3);
  }

  lemma VideoParses(e: VideoExtension)
    ensures Elements(EncodeVideo(e), NothingSeen) == Some(Seen(e, true, true, true))
  {
    hide Elements, VideoTail, Be16;
    var head := if e.frameNumber.Some? then [e.mediaFrameInfo] + Be16(e.frameNumber.value) else [e.mediaFrameInfo];
    var header: u8 := if e.frameNumber.Some? then 0x32 else 0x30;
    assert EncodeVideo(e) == [header] + head + VideoTail(e);
    if e.frameNumber.Some? {
      Be16At(e.frameNumber.value);
      assert U16At(head, 1) == e.frameNumber.value;
    }
    var s1 := Element(NothingSeen, 3, head).value;
    ElementFirst(header, head, VideoTail(e), NothingSeen);
    TailParses(e, s1);
  }

  /** Each kind of element the caller looks for takes at least two bytes, the longer ones three: four bytes cannot hold all. */
  lemma WordHasNoVideo(w: u32)
    ensures match Elements(Be32(w), NothingSeen) case None => true case Some(s) => !(s.offset && s.transport)
  {
    ShortHasOne(Be32(w), NothingSeen);
  }

  lemma {:induction false} ShortHasOne(ext: seq<u8>, s: Seen)
    requires |ext| <= 4 && !s.offset && !s.transport
    ensures match Elements(ext, s) case None => true case Some(r) => !(r.offset && r.transport)
    decreases |ext|
  {
    if ext != [] {
      if ext[0] == 0 {
        ShortHasOne(ext[1..], s);
      } else {
        var id, length := ext[0] / 0x10, ext[0] % 0x10 + 1;
        if id != 15 && 1 + length <= |ext| {
          match Element(s, id, ext[1..1 + length])
          case None =>
          case Some(s1) => if s1.offset || s1.transport { TooShort(ext[1 + length..], s1); } else { ShortHasOne(ext[1 + length..], s1); }
        }
      }
    }
  }

  lemma {:induction false} TooShort(ext: seq<u8>, s: Seen)
    requires |ext| <= 1
    ensures match Elements(ext, s) case None => true case Some(r) => r.offset == s.offset && r.transport == s.transport
  {
    if ext != [] && ext[0] == 0 { assert ext[1..] == []; }
  }

  lemma EncodedFields(h: RtpHeader, payload: seq<u8>)
    ensures var d, ext := EncodeHeader(h) + payload, ExtensionBytes(h);
      && |d| == 16 + |ext| + |payload| && d[0] == 0x90 && d[1] == h.payloadType % 0x80 + (if h.marker then 0x80 else 0)
      && U16At(d, 2) == h.sequenceNumber && U32At(d, 4) == h.timestamp && U32At(d, 8) == h.ssrc
      && U16At(d, 12) == PROFILE && U16At(d, 14) == |ext| / 4 && d[16..16 + |ext|] == ext && d[16 + |ext|..] == payload
  {
    Be32At(h.timestamp);
    Be32At(h.ssrc);
    var ext := ExtensionBytes(h);
    hide ExtensionBytes;
    var e, d := EncodeHeader(h), EncodeHeader(h) + payload;
    assert e[2..4] == Be16(h.sequenceNumber) && e[4..8] == Be32(h.timestamp) && e[8..12] == Be32(h.ssrc);
    assert e[12..14] == Be16(PROFILE) && e[14..16] == Be16(|ext| / 4) && e[16..] == ext;
    assert d[4..8] == Be32(h.timestamp) && d[8..12] == Be32(h.ssrc);
    assert forall k :: 0 <= k < 4 ==> d[4 + k] == Be32(h.timestamp)[k] && d[8 + k] == Be32(h.ssrc)[k];
  }

  /** Everything but the audio extension word, which is not decoded, survives; the payload starts where the length says. */
  lemma HeaderRoundTrip(h: RtpHeader, payload: seq<u8>)
    requires h.payloadType < 0x80
    ensures var d := EncodeHeader(h) + payload;
      ParseHeader(d) == Some(h.(extensionWord := None)) && HeaderLength(d) == Some(|EncodeHeader(h)|) && d[|EncodeHeader(h)|..] == payload
  {
    hide EncodeHeader, ExtensionBytes, Elements, EncodeVideo, U32At;
    var d, ext := EncodeHeader(h) + payload, ExtensionBytes(h);
    EncodedFields(h, payload);
    assert ProfileAndData(d) == Some((PROFILE, ext));
    ExtensionParses(h);
    assert ParseVideo(d) == h.video;
  }

  lemma ExtensionParses(h: RtpHeader)
    ensures var r := Elements(ExtensionBytes(h), NothingSeen);
      match h.video
      case Some(e) => r == Some(Seen(e, true, true, true))
      case None => match r case None => true case Some(s) => !(s.info && s.offset && s.transport)
  {
    if h.video.Some? {
      VideoParses(h.video.value);
    } else if h.extensionWord.Some? {
      WordHasNoVideo(h.extensionWord.value);
    } else {
      assert Elements([], NothingSeen) == Some(NothingSeen);
    }
  }

  // ---------------------------------------------------------------- audio sequencer

  const Priming1: seq<u8> := [0x12, 0x36, 0x26, 0x2b, 0x4a, 0xc8, 0x2b, 0x09, 0xc9, 0x1f, 0x34, 0xc2, 0xd6, 0x7a, 0x01, 0x73, 0x1b, 0x2e]
  const Priming2: seq<u8> := [0x90, 0xb8, 0x14, 0x14, 0xc4]

  predicate IsDtx(p: seq<u8>)
  {
    if p == [] then false
    else if |p| == 1 then p[0] == 0x10 || p[0] == 0x88 || p[0] == 0x90
    else |p| <= 15 && (p[0] / 8 == 1 || p[0] == 0x0a || (p[0] / 0x10 == 3 && |p| <= 6))
  }

  /** Comfort noise: one byte of three, up to fifteen from the 08 to 0F codes, or up to six from the 30 to 3F codes. */
  lemma DtxExact(p: seq<u8>)
    ensures IsDtx(p)
      <==> (|p| == 1 && p[0] in {0x10, 0x88, 0x90}) || (2 <= |p| <= 15 && 0x08 <= p[0] <= 0x0f) || (2 <= |p| <= 6 && 0x30 <= p[0] <= 0x3f)
    ensures IsDtx(p) ==> !IsPriming(p)
  {
  }

  predicate IsPriming(p: seq<u8>) { p == Priming1 || p == Priming2 }

  predicate IsSpeech(p: seq<u8>) { !IsDtx(p) && !IsPriming(p) }

  /** Everything else is speech: neither comfort noise nor one of the two priming frames. */
  lemma SpeechExact(p: seq<u8>)
    ensures !IsSpeech(p)
      <==> p == Priming1 || p == Priming2 || (|p| == 1 && p[0] in {0x10, 0x88, 0x90})
           || (2 <= |p| <= 15 && 0x08 <= p[0] <= 0x0f) || (2 <= |p| <= 6 && 0x30 <= p[0] <= 0x3f)
  {
    DtxExact(p);
  }

  /** Sequencer without piggyback words: numbers from 1, timestamps by packet, marker on the first speech packet. */
  class RtpStream {
    const ssrc: u32
    const samplesPerPacket: u32
    var seqNo: u16
    var timestamp: u32
    var speechStarted: bool
    /** Payloads sequenced so far. */
    ghost var sent: seq<seq<u8>>

    ghost predicate Valid()
      reads this
    {
      && seqNo == (1 + |sent|) % 0x1_0000 && timestamp == Stamp(samplesPerPacket, |sent|)
      && (speechStarted <==> exists k :: 0 <= k < |sent| && IsSpeech(sent[k]))
    }

    constructor (ssrc: u32, samplesPerPacket: u32)
      ensures Valid() && sent == [] && this.ssrc == ssrc && this.samplesPerPacket == samplesPerPacket
    {
      this.ssrc, this.samplesPerPacket, seqNo, timestamp, speechStarted, sent := ssrc, samplesPerPacket, 1, 0, false, [];
    }

    /** The header is the one of the packet's place in the stream. */
    method NextPacket(payload: seq<u8>, marker: bool) returns (h: RtpHeader)
      requires Valid()
      modifies this
      ensures Valid() && sent == old(sent) + [payload]
      ensures h == StreamHeader(ssrc, samplesPerPacket, old(sent), payload, marker)
    {
      var dtx, priming := IsDtx(payload), IsPriming(payload);
      var speech := !dtx && !priming;
      var useMarker := marker || (speech && !speechStarted);
      if speech { speechStarted := true; }
      var word := if dtx then Some(DTX_WORD) else None;
      h := RtpHeader(useMarker, PT_OPUS, seqNo, timestamp, ssrc, word, None);
      seqNo := (seqNo + 1) % 0x1_0000;
      timestamp := (timestamp + samplesPerPacket) % 0x1_0000_0000;
      NextNumber(1 + |sent|);
      ghost var before := sent;
      sent := sent + [payload];
      if exists k :: 0 <= k < |before| && IsSpeech(before[k]) {
        var k :| 0 <= k < |before| && IsSpeech(before[k]);
        assert IsSpeech(sent[k]);
      }
      assert sent[|before|] == payload;
    }
  }

  /** Timestamp of packet n, wrapping at 32 bits. */
  function Stamp(step: u32, n: nat): u32 { if n == 0 then 0 else (Stamp(step, n - 1) + step) % 0x1_0000_0000 }

  lemma NextNumber(x: nat)
    ensures (x % 0x1_0000 + 1) % 0x1_0000 == (x + 1) % 0x1_0000
  {
    var q, r := x / 0x1_0000, x % 0x1_0000;
    if r == 0xFFFF {
      DivModUnique(x + 1, 0x1_0000, q + 1, 0);
    } else {
      DivModUnique(x + 1, 0x1_0000, q, r + 1);
    }
  }

  /** Header of `payload` sent after `before`. */
  ghost function StreamHeader(ssrc: u32, step: u32, before: seq<seq<u8>>, payload: seq<u8>, marker: bool): (h: RtpHeader)
    ensures h.payloadType < 0x80
  {
    var first := IsSpeech(payload) && forall k :: 0 <= k < |before| ==> !IsSpeech(before[k]);
    RtpHeader(marker || first, PT_OPUS, (1 + |before|) % 0x1_0000, Stamp(step, |before|), ssrc, if IsDtx(payload) then Some(DTX_WORD) else None, None)
  }

  /**
   What goes out for packet k of a stream no marker is asked for: numbers from 1, the marker on the first speech packet alone, and
   twenty bytes ending in the comfort noise word for comfort noise, sixteen for everything else.
   */
  lemma StreamWire(ssrc: u32, step: u32, payloads: seq<seq<u8>>, k: nat)
    requires k < |payloads|
    ensures var h := StreamHeader(ssrc, step, payloads[..k], payloads[k], false);
      var b := EncodeHeader(h);
      && h.ssrc == ssrc && h.sequenceNumber == (k + 1) % 0x1_0000 && h.timestamp == k * step % 0x1_0000_0000
      && (h.marker <==> IsSpeech(payloads[k]) && forall j :: 0 <= j < k ==> !IsSpeech(payloads[j]))
      && |b| == (if IsDtx(payloads[k]) then 20 else 16)
      && (IsDtx(payloads[k]) ==> b[16..] == [0x30, 0x01, 0x00, 0x00])
  {
    hide IsSpeech, IsDtx;
    StampIs(step, k);
    var before := payloads[..k];
    assert forall j :: 0 <= j < k ==> before[j] == payloads[j];
    var h := StreamHeader(ssrc, step, before, payloads[k], false);
    if IsDtx(payloads[k]) { assert EncodeHeader(h)[16..] == Be32(DTX_WORD); }
  }

  lemma {:induction false} StampIs(step: u32, n: nat)
    ensures Stamp(step, n) == n * step % 0x1_0000_0000
  {
    if n > 0 {
      StampIs(step, n - 1);
      var x := (n - 1) * step;
      var q, r := x / 0x1_0000_0000, x % 0x1_0000_0000;
      DivModUnique(n * step, 0x1_0000_0000, q + (r + step) / 0x1_0000_0000, (r + step) % 0x1_0000_0000);
    }
  }

  // ---------------------------------------------------------------- video sequencer

  /** All packets of one access unit share a timestamp; the marker packet moves on to the next. */
  class VideoRtpStream {
    const ssrc: u32
    var seqNo: u16
    var timestamp: u32
    var tsStride: u32
    var transportSequence: u16
    var frameNumber: u16
    var firstPacket: bool

    constructor (ssrc: u32, tsStride: u32)
      ensures this.ssrc == ssrc && this.tsStride == tsStride && seqNo == 1 && timestamp == 0 && transportSequence == 0 && frameNumber == 1 && firstPacket
    {
      this.ssrc, this.tsStride, seqNo, timestamp, transportSequence, frameNumber, firstPacket := ssrc, tsStride, 1, 0, 0, 1, true;
    }

    method NextPacket(lastInAccessUnit: bool, mediaFrameInfo: u8) returns (h: RtpHeader)
      modifies this
      ensures h == RtpHeader(lastInAccessUnit, PT_H264, old(seqNo), old(timestamp), ssrc, None,
        Some(VideoExtension(mediaFrameInfo, if old(firstPacket) then Some(old(frameNumber)) else None, 0, 0, old(transportSequence))))
      ensures seqNo == (old(seqNo) + 1) % 0x1_0000 && transportSequence == (old(transportSequence) + 1) % 0x1_0000 && tsStride == old(tsStride)
      ensures firstPacket == lastInAccessUnit
      ensures timestamp == (if lastInAccessUnit then (old(timestamp) + tsStride) % 0x1_0000_0000 else old(timestamp))
      ensures frameNumber == (if lastInAccessUnit then (old(frameNumber) + 1) % 0x1_0000 else old(frameNumber))
    {
      var number := if firstPacket then Some(frameNumber) else None;
      h := RtpHeader(lastInAccessUnit, PT_H264, seqNo, timestamp, ssrc, None, Some(VideoExtension(mediaFrameInfo, number, 0, 0, transportSequence)));
      seqNo := (seqNo + 1) % 0x1_0000;
      transportSequence := (transportSequence + 1) % 0x1_0000;
      if lastInAccessUnit {
        timestamp := (timestamp + tsStride) % 0x1_0000_0000;
        frameNumber := (frameNumber + 1) % 0x1_0000;
        firstPacket := true;
      } else {
        firstPacket := false;
      }
    }
  }
}
