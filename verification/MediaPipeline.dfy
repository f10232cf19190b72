/** Protecting and unprotecting media packets, and the agreement of both ends over a lossy, reordering channel. */
module MediaPipeline {
  import Arith
  import opened Words
  import opened Srtp
  import opened Rtp

  /** The integrity tag of a packet; it is appended and stripped but never checked. */
  type Tagger = (seq<u8>, seq<u8>, u32) -> seq<u8>

  function Tag(tagger: Tagger, key: seq<u8>, packet: seq<u8>, roc: u32, n: nat): (t: seq<u8>)
    ensures |t| == n
  {
    seq(n, i requires 0 <= i < n => At(tagger(key, packet, roc), i))
  }

  /** Everything about the cryptography that the framing relies on. */
  datatype Crypto = Crypto(ks: Keystream, tagger: Tagger, tagLen: nat)

  /** Header, encrypted payload, tag. */
  function Wire(c: Crypto, keys: Keys, h: RtpHeader, roc: u32, payload: seq<u8>): seq<u8>
  {
    var packet := EncodeHeader(h) + CryptPayload(c.ks, keys, h.ssrc, h.sequenceNumber, roc, payload);
    packet + Tag(c.tagger, keys.authKey, packet, roc, c.tagLen)
  }

  /** The receiver's counter state. */
  datatype RecvState = Unseen | Standing(roc: u32, high: u16)

  function GuessStep(s: RecvState, seqNo: u16): (u32, RecvState)
  {
    match s
    case Unseen => (0, Standing(0, seqNo))
    case Standing(roc, high) =>
      var v := Guess(roc, high, seqNo);
      (v, if v == roc then Standing(roc, if seqNo > high then seqNo else high)
          else if v == (roc + 1) % 0x1_0000_0000 then Standing(v, seqNo) else s)
  }

  /** What arrives of a packet, and the state after it; malformed packets leave the state alone. */
  function Unprotect(c: Crypto, keys: Keys, s: RecvState, packet: seq<u8>): (Option<(RtpHeader, seq<u8>)>, RecvState)
  {
    if |packet| < 12 + c.tagLen then (None, s)
    else
      var body := packet[..|packet| - c.tagLen];
      match ParseHeader(body)
      case None => (None, s)
      case Some(h) =>
        match HeaderLength(body)
        case None => (None, s)
        case Some(n) =>
          if |body| <= n then (None, s)
          else
            var (roc, s1) := GuessStep(s, h.sequenceNumber);
            (Some((h, CryptPayload(c.ks, keys, h.ssrc, h.sequenceNumber, roc, body[n..]))), s1)
  }

  /** Header fields as a receiver sees them. */
  function Received(h: RtpHeader): RtpHeader { h.(extensionWord := None) }

  /** With the counters agreeing, unprotecting gives back what was protected. */
  lemma UnprotectWire(c: Crypto, keys: Keys, s: RecvState, h: RtpHeader, roc: u32, payload: seq<u8>)
    requires h.payloadType < 0x80 && payload != [] && GuessStep(s, h.sequenceNumber).0 == roc
    ensures Unprotect(c, keys, s, Wire(c, keys, h, roc, payload)) == (Some((Received(h), payload)), GuessStep(s, h.sequenceNumber).1)
  {
    hide EncodeHeader, ParseHeader, HeaderLength, CryptPayload, Tag, GuessStep;
    var secret := CryptPayload(c.ks, keys, h.ssrc, h.sequenceNumber, roc, payload);
    var body, packet := EncodeHeader(h) + secret, Wire(c, keys, h, roc, payload);
    assert packet[..|packet| - c.tagLen] == body;
    HeaderRoundTrip(h, secret);
    CryptTwice(c.ks, keys, h.ssrc, h.sequenceNumber, roc, payload);
  }

  // ---------------------------------------------------------------- the channel

  /** Packet k of a stream: its place in the stream is its index less one. */
  ghost function Sent(c: Crypto, keys: Keys, ssrc: u32, step: u32, payloads: seq<seq<u8>>, k: nat): seq<u8>
    requires k < |payloads|
  {
    Wire(c, keys, StreamHeader(ssrc, step, payloads[..k], payloads[k], false), Roc(k + 1), payloads[k])
  }

  /** Delivery order of packets by number; each falls in the window around the highest delivered before it. */
  predicate Deliverable(n: nat, highest: nat, order: seq<nat>)
    decreases |order|
  {
    order == [] || (order[0] < n && InWindow(highest, order[0] + 1) && Deliverable(n, Highest(highest, order[0] + 1), order[1..]))
  }

  /** Strictly within 2^15 of the highest is enough. */
  lemma WithinHalf(highest: nat, index: nat)
    requires highest - HALF < index < highest + HALF
    ensures InWindow(highest, index)
  {
  }

  ghost function Deliver(c: Crypto, keys: Keys, s: RecvState, wires: seq<seq<u8>>, order: seq<nat>): (r: seq<Option<(RtpHeader, seq<u8>)>>)
    requires forall j :: 0 <= j < |order| ==> order[j] < |wires|
    ensures |r| == |order|
    decreases |order|
  {
    if order == [] then []
    else
      var (first, s1) := Unprotect(c, keys, s, wires[order[0]]);
      [first] + Deliver(c, keys, s1, wires, order[1..])
  }

  predicate Stands(s: RecvState, highest: nat) { s == Standing(Roc(highest), Srtp.Seq(highest)) }

  ghost predicate Stream(c: Crypto, keys: Keys, ssrc: u32, step: u32, payloads: seq<seq<u8>>, wires: seq<seq<u8>>)
  {
    && |payloads| == |wires| < 0xFFFF_FFFF_FFFF && (forall k :: 0 <= k < |payloads| ==> payloads[k] != [])
    && forall k :: 0 <= k < |payloads| ==> wires[k] == Sent(c, keys, ssrc, step, payloads, k)
  }

  lemma OneDelivered(c: Crypto, keys: Keys, ssrc: u32, step: u32, payloads: seq<seq<u8>>, wires: seq<seq<u8>>, s: RecvState, k: nat)
    requires Stream(c, keys, ssrc, step, payloads, wires) && k < |wires|
    requires GuessStep(s, Srtp.Seq(k + 1)).0 == Roc(k + 1)
    ensures var h := StreamHeader(ssrc, step, payloads[..k], payloads[k], false);
      Unprotect(c, keys, s, wires[k]) == (Some((Received(h), payloads[k])), GuessStep(s, Srtp.Seq(k + 1)).1)
  {
    hide Unprotect, GuessStep, Wire;
    var h := StreamHeader(ssrc, step, payloads[..k], payloads[k], false);
    assert h.sequenceNumber == Srtp.Seq(k + 1);
    UnprotectWire(c, keys, s, h, Roc(k + 1), payloads[k]);
  }

  /** Whatever is lost, repeated or reordered within the window, every delivered packet decrypts to what was sent. */
  lemma {:induction false} Agreement(c: Crypto, keys: Keys, ssrc: u32, step: u32, payloads: seq<seq<u8>>, wires: seq<seq<u8>>,
                                    s: RecvState, highest: nat, order: seq<nat>, j: nat)
    requires Stream(c, keys, ssrc, step, payloads, wires) && Deliverable(|wires|, highest, order) && Stands(s, highest) && highest <= |wires|
    requires j < |order| && forall i :: 0 <= i < |order| ==> order[i] < |wires|
    ensures Deliver(c, keys, s, wires, order)[j]
         == Some((Received(StreamHeader(ssrc, step, payloads[..order[j]], payloads[order[j]], false)), payloads[order[j]]))
    decreases |order|
  {
    hide Unprotect, Sent, InWindow, Stream, StreamHeader;
    StreamSize(c, keys, ssrc, step, payloads, wires);
    var k := order[0];
    GuessKeepsUp(highest, k + 1);
    OneDelivered(c, keys, ssrc, step, payloads, wires, s, k);
    var s1 := GuessStep(s, Srtp.Seq(k + 1)).1;
    if j > 0 { Agreement(c, keys, ssrc, step, payloads, wires, s1, Highest(highest, k + 1), order[1..], j - 1); }
  }

  lemma StreamSize(c: Crypto, keys: Keys, ssrc: u32, step: u32, payloads: seq<seq<u8>>, wires: seq<seq<u8>>)
    requires Stream(c, keys, ssrc, step, payloads, wires)
    ensures |payloads| == |wires| < 0xFFFF_FFFF_FFFF
  {
  }

  /** A fresh receiver starts from counter 0, which is right for the first packet to arrive exactly if it is one of the first cycle. */
  lemma FirstGuessExact(index: nat)
    requires index < Srtp.SPACE
    ensures GuessStep(Unseen, Srtp.Seq(index)).0 == Roc(index) <==> index < CYCLE
  {
    SmallMod(index / CYCLE);
    Arith.DivBounds(index, CYCLE);
  }

  /** From a fresh receiver: it suffices that the first packet to arrive is one of the first 65535 sent. */
  lemma AgreementFromStart(c: Crypto, keys: Keys, ssrc: u32, step: u32, payloads: seq<seq<u8>>, wires: seq<seq<u8>>, order: seq<nat>, j: nat)
    requires Stream(c, keys, ssrc, step, payloads, wires) && j < |order| && forall i :: 0 <= i < |order| ==> order[i] < |wires|
    requires order[0] + 1 < CYCLE && Deliverable(|wires|, order[0] + 1, order[1..])
    ensures Deliver(c, keys, Unseen, wires, order)[j]
         == Some((Received(StreamHeader(ssrc, step, payloads[..order[j]], payloads[order[j]], false)), payloads[order[j]]))
  {
    hide Unprotect, Sent, InWindow, Stream, StreamHeader;
    StreamSize(c, keys, ssrc, step, payloads, wires);
    var k := order[0];
    NextIndex(k + 1);
    OneDelivered(c, keys, ssrc, step, payloads, wires, Unseen, k);
    if j > 0 { Agreement(c, keys, ssrc, step, payloads, wires, GuessStep(Unseen, Srtp.Seq(k + 1)).1, k + 1, order[1..], j - 1); }
  }

  // ---------------------------------------------------------------- the pipeline object

  class MediaPipeline {
    const crypto: Crypto
    const sendKeys: Keys
    var recvKeys: Keys
    const stream: RtpStream
    const sendRoc: RocTracker
    var recvRoc: RecvRocTracker
    var packetsSent: u32
    var octetsSent: u32
    var rtpTimestamp: u32

    /** The sequencer and the send counter have seen the same packets. */
    ghost predicate Valid()
      reads this, stream, sendRoc
    {
      && stream.Valid()
      && if stream.sent == [] then !sendRoc.initialized && sendRoc.roc == 0 else sendRoc.At(|stream.sent|)
    }

    ghost function Receiver(): RecvState
      reads this, recvRoc
    {
      if recvRoc.initialized then Standing(recvRoc.roc, recvRoc.sL) else Unseen
    }

    ghost predicate FreshCounter()
      reads this, recvRoc
    {
      !recvRoc.initialized ==> recvRoc.roc == 0
    }

    constructor (crypto: Crypto, sendKeys: Keys, recvKeys: Keys, ssrc: u32, samplesPerPacket: u32)
      ensures Valid() && FreshCounter() && Receiver() == Unseen && stream.sent == [] && packetsSent == 0 && octetsSent == 0 && rtpTimestamp == 0
      ensures this.crypto == crypto && this.sendKeys == sendKeys && this.recvKeys == recvKeys
      ensures stream.ssrc == ssrc && stream.samplesPerPacket == samplesPerPacket && fresh(stream) && fresh(sendRoc) && fresh(recvRoc)
    {
      this.crypto, this.sendKeys, this.recvKeys := crypto, sendKeys, recvKeys;
      stream := new RtpStream(ssrc, samplesPerPacket);
      sendRoc := new RocTracker();
      recvRoc := new RecvRocTracker();
      packetsSent, octetsSent, rtpTimestamp := 0, 0, 0;
    }

    /** Packet number |sent| of the stream, protected under its own index. */
    method ProtectAudio(payload: seq<u8>) returns (packet: seq<u8>)
      requires Valid()
      modifies this`packetsSent, this`octetsSent, this`rtpTimestamp, stream, sendRoc
      ensures Valid() && stream.sent == old(stream.sent) + [payload]
      ensures packet == Sent(crypto, sendKeys, stream.ssrc, stream.samplesPerPacket, stream.sent, |old(stream.sent)|)
      ensures rtpTimestamp == Stamp(stream.samplesPerPacket, |old(stream.sent)|)
      ensures packetsSent == (old(packetsSent) + 1) % 0x1_0000_0000 && octetsSent == (old(octetsSent) + |payload|) % 0x1_0000_0000
    {
      hide EncodeHeader, CryptPayload, Tag;
      ghost var before := stream.sent;
      var header := stream.NextPacket(payload, false);
      var roc := AdvanceNext(sendRoc, |before| + 1, header.sequenceNumber);
      var clear := EncodeHeader(header);
      var secret := CryptPayload(crypto.ks, sendKeys, header.ssrc, header.sequenceNumber, roc, payload);
      packet := clear + secret;
      packet := packet + Tag(crypto.tagger, sendKeys.authKey, packet, roc, crypto.tagLen);
      packetsSent := (packetsSent + 1) % 0x1_0000_0000;
      octetsSent := (octetsSent + |payload|) % 0x1_0000_0000;
      rtpTimestamp := header.timestamp;
      assert stream.sent[..|before|] == before;
    }

    /** Under a header the caller numbers itself. */
    method ProtectRTP(header: RtpHeader, payload: seq<u8>) returns (packet: seq<u8>)
      modifies this`packetsSent, this`octetsSent, this`rtpTimestamp, sendRoc
      ensures packet == Wire(crypto, sendKeys, header, sendRoc.roc, payload)
      ensures forall index: nat {:trigger old(sendRoc.Awaits(index))} :: header.sequenceNumber == Srtp.Seq(index) && old(sendRoc.Awaits(index)) ==>
        sendRoc.At(index) && sendRoc.Awaits(index + 1)
      ensures packetsSent == (old(packetsSent) + 1) % 0x1_0000_0000 && octetsSent == (old(octetsSent) + |payload|) % 0x1_0000_0000
      ensures rtpTimestamp == header.timestamp
    {
      forall index: nat | header.sequenceNumber == Srtp.Seq(index) && sendRoc.Awaits(index)
        ensures Roc(index) == if sendRoc.initialized && Srtp.Seq(index) - sendRoc.lastSeq < -0x8000 then (sendRoc.roc + 1) % 0x1_0000_0000 else sendRoc.roc
      {
        NextIndex(index);
      }
      var roc := sendRoc.Advance(header.sequenceNumber);
      packet := EncodeHeader(header) + CryptPayload(crypto.ks, sendKeys, header.ssrc, header.sequenceNumber, roc, payload);
      packet := packet + Tag(crypto.tagger, sendKeys.authKey, packet, roc, crypto.tagLen);
      packetsSent := (packetsSent + 1) % 0x1_0000_0000;
      octetsSent := (octetsSent + |payload|) % 0x1_0000_0000;
      rtpTimestamp := header.timestamp;
    }

    method UnprotectAudio(packet: seq<u8>) returns (r: Option<(RtpHeader, seq<u8>)>)
      requires FreshCounter()
      modifies recvRoc
      ensures FreshCounter() && (r, Receiver()) == Unprotect(crypto, recvKeys, old(Receiver()), packet)
    {
      hide ParseHeader, HeaderLength, CryptPayload;
      if |packet| < 12 + crypto.tagLen { return None; }
      var withoutTag := packet[..|packet| - crypto.tagLen];
      var header := ParseHeader(withoutTag);
      if header.None? { return None; }
      var headerLen := HeaderLength(withoutTag);
      if headerLen.None? || |withoutTag| <= headerLen.value { return None; }
      var roc := recvRoc.GuessRoc(header.value.sequenceNumber);
      var plain := CryptPayload(crypto.ks, recvKeys, header.value.ssrc, header.value.sequenceNumber, roc, withoutTag[headerLen.value..]);
      r := Some((header.value, plain));
    }

    /** A new peer device: new keys, and a counter that has seen nothing. */
    method RekeyRecv(keys: Keys)
      modifies this`recvKeys, this`recvRoc
      ensures recvKeys == keys && Receiver() == Unseen && FreshCounter() && fresh(recvRoc)
    {
      recvKeys := keys;
      recvRoc := new RecvRocTracker();
    }
  }
}
