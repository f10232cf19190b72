/** When video may be sent: gating, keyframe requirement and packetisation, and what the engine's events do to them. */
module VideoSender {
  import opened Words
  import opened Rtp
  import opened H264
  import Arith
  import MediaPipeline
  import Srtp

  // ---------------------------------------------------------------- gating as a state machine

  /** What decides whether an access unit goes out. */
  datatype Gate = Gate(active: bool, sendGated: bool, keyframeRequired: bool)

  datatype Event = Enable(gated: bool) | Disable | RequestKeyframe | AccessUnit(au: Bytes)

  ghost predicate HasIdr(au: Bytes)
  {
    exists k :: 0 <= k < |Split(au)| && Split(au)[k] != [] && TypeOf(Split(au)[k][0]) == 5
  }

  /** A stream of tidy units holds a keyframe if one of them starts with a byte whose five low bits say 5. */
  lemma IdrUnits(ns: seq<Bytes>)
    requires Tidy(ns) && ns != [] && forall k :: 0 <= k < |ns| ==> ns[k] != []
    ensures HasIdr(Prefix + Join(ns)) <==> exists k :: 0 <= k < |ns| && ns[k][0] in {0x05, 0x25, 0x45, 0x65, 0x85, 0xA5, 0xC5, 0xE5}
  {
    hide Split, Join, Tidy, TypeOf;
    SplitOfAnnexed(ns);
    forall k | 0 <= k < |ns| ensures TypeOf(ns[k][0]) == 5 <==> ns[k][0] in {0x05, 0x25, 0x45, 0x65, 0x85, 0xA5, 0xC5, 0xE5} { TypeFive(ns[k][0]); }
    if HasIdr(Prefix + Join(ns)) {
      var k :| 0 <= k < |Split(Prefix + Join(ns))| && Split(Prefix + Join(ns))[k] != [] && TypeOf(Split(Prefix + Join(ns))[k][0]) == 5;
      assert ns[k][0] in {0x05, 0x25, 0x45, 0x65, 0x85, 0xA5, 0xC5, 0xE5};
    }
  }

  lemma TypeFive(b: u8)
    ensures TypeOf(b) == 5 <==> b in {0x05, 0x25, 0x45, 0x65, 0x85, 0xA5, 0xC5, 0xE5}
  {
  }

  /** Units out: the access unit is packetised. */
  ghost predicate Packetises(g: Gate, au: Bytes)
  {
    g.active && !g.sendGated && (g.keyframeRequired ==> HasIdr(au)) && Packed(au) != []
  }

  ghost function After(g: Gate, e: Event): Gate
  {
    match e
    case Enable(gated) => Gate(true, gated, g.keyframeRequired || !g.active || (g.sendGated && !gated))
    case Disable => Gate(false, false, true)
    case RequestKeyframe => g.(keyframeRequired := true)
    case AccessUnit(au) => if Packetises(g, au) && HasIdr(au) then g.(keyframeRequired := false) else g
  }

  ghost function Run(g: Gate, es: seq<Event>): Gate
  {
    if es == [] then g else After(Run(g, es[..|es| - 1]), es[|es| - 1])
  }

  /** Event k is an access unit that goes out. */
  ghost predicate Sends(g: Gate, es: seq<Event>, k: nat)
    requires k < |es|
  {
    es[k].AccessUnit? && Packetises(Run(g, es[..k]), es[k].au)
  }

  /** Event k makes a keyframe necessary. */
  ghost predicate Demands(g: Gate, es: seq<Event>, k: nat)
    requires k < |es|
  {
    match es[k]
    case Enable(gated) => !Run(g, es[..k]).active || (Run(g, es[..k]).sendGated && !gated)
    case Disable => true
    case RequestKeyframe => true
    case AccessUnit(_) => false
  }

  /** A keyframe sent at j with nothing since that would demand another, up to n. */
  ghost predicate KeyedBy(g: Gate, es: seq<Event>, j: nat, n: nat)
    requires j < n <= |es|
  {
    && Sends(g, es, j) && HasIdr(es[j].au)
    && forall i :: j < i < n ==> !Demands(g, es, i)
  }

  /** While no keyframe is required, one has been sent since the last demand. */
  lemma {:induction false} KeyframeBefore(g: Gate, es: seq<Event>, n: nat) returns (j: nat)
    requires g.keyframeRequired && n <= |es| && !Run(g, es[..n]).keyframeRequired
    ensures j < n && KeyedBy(g, es, j, n)
  {
    assert es[..0] == [];
    if n == 0 {
      assert false;
    } else {
      var m := n - 1;
      assert es[..n][..m] == es[..m];
      var before := Run(g, es[..m]);
      assert Run(g, es[..n]) == After(before, es[m]);
      if es[m].AccessUnit? && Packetises(before, es[m].au) && HasIdr(es[m].au) {
        j := m;
      } else {
        j := KeyframeBefore(g, es, m);
        assert !Demands(g, es, m);
      }
    }
  }

  /**
   Over any run from a sender that starts out needing a keyframe: a unit goes out only while active and not gated,
   and one without a keyframe only after a keyframe with no disable, un-gating, restart or keyframe request since.
   */
  lemma SendsSafely(g: Gate, es: seq<Event>, k: nat) returns (j: nat)
    requires g.keyframeRequired && k < |es| && Sends(g, es, k)
    ensures Run(g, es[..k]).active && !Run(g, es[..k]).sendGated
    ensures !HasIdr(es[k].au) ==> j < k && KeyedBy(g, es, j, k)
  {
    j := 0;
    if !HasIdr(es[k].au) { j := KeyframeBefore(g, es, k); }
  }

  /** The event before n that last turned sending on or off, or -1. */
  function LastSwitch(es: seq<Event>, n: nat): (k: int)
    requires n <= |es|
    ensures -1 <= k < n && (k >= 0 ==> es[k].Enable? || es[k].Disable?)
    ensures forall i :: k < i < n ==> !es[i].Enable? && !es[i].Disable?
  {
    if n == 0 then -1 else if es[n - 1].Enable? || es[n - 1].Disable? then n - 1 else LastSwitch(es, n - 1)
  }

  /** Sending is on, and gated, as the last switch left them. */
  predicate SwitchedTo(g: Gate, es: seq<Event>, n: nat, active: bool, sendGated: bool)
    requires n <= |es|
  {
    var k := LastSwitch(es, n);
    if k < 0 then active == g.active && sendGated == g.sendGated
    else if es[k].Enable? then active && sendGated == es[k].gated
    else !active && !sendGated
  }

  lemma {:induction false} FlagsFollowSwitch(g: Gate, es: seq<Event>, n: nat)
    requires n <= |es|
    ensures SwitchedTo(g, es, n, Run(g, es[..n]).active, Run(g, es[..n]).sendGated)
  {
    assert es[..0] == [];
    if n > 0 {
      assert es[..n][..n - 1] == es[..n - 1];
      FlagsFollowSwitch(g, es, n - 1);
    }
  }

  /** Once a keyframe has gone out and nothing has demanded another, none is required. */
  lemma {:induction false} KeyframeLasts(g: Gate, es: seq<Event>, j: nat, n: nat)
    requires j < n <= |es| && KeyedBy(g, es, j, n)
    ensures !Run(g, es[..n]).keyframeRequired
    decreases n
  {
    assert es[..n][..n - 1] == es[..n - 1];
    if j < n - 1 {
      assert KeyedBy(g, es, j, n - 1);
      KeyframeLasts(g, es, j, n - 1);
      assert !Demands(g, es, n - 1);
    }
  }

  /**
   Exactly what goes out of a sender that starts out needing a keyframe: access units with something in them, while the
   last switch left it on and not gated, that hold a keyframe or follow one with nothing since that demands another.
   */
  lemma SendsExactly(g: Gate, es: seq<Event>, k: nat)
    requires g.keyframeRequired && k < |es| && es[k].AccessUnit?
    ensures Sends(g, es, k)
      <==> SwitchedTo(g, es, k, true, false) && Packed(es[k].au) != [] && (HasIdr(es[k].au) || exists j: nat :: j < k && KeyedBy(g, es, j, k))
  {
    FlagsFollowSwitch(g, es, k);
    if Sends(g, es, k) && !HasIdr(es[k].au) { var j := SendsSafely(g, es, k); }
    if j: nat :| j < k && KeyedBy(g, es, j, k) { KeyframeLasts(g, es, j, k); }
  }

  /** A keyframe goes out strictly between j and k. */
  ghost predicate KeyframeBetween(g: Gate, es: seq<Event>, j: nat, k: nat)
    requires k <= |es|
  {
    exists i: nat :: j < i < k && Sends(g, es, i) && HasIdr(es[i].au)
  }

  lemma {:induction false} RequiredUntilSent(g: Gate, es: seq<Event>, j: nat, n: nat)
    requires j < n <= |es| && Run(g, es[..j + 1]).keyframeRequired && !Run(g, es[..n]).keyframeRequired
    ensures KeyframeBetween(g, es, j, n)
  {
    assert es[..n][..n - 1] == es[..n - 1];
    var before := Run(g, es[..n - 1]);
    assert Run(g, es[..n]) == After(before, es[n - 1]);
    if j + 1 == n {
      assert false;
    } else if !before.keyframeRequired {
      RequiredUntilSent(g, es, j, n - 1);
      var i: nat :| j < i < n - 1 && Sends(g, es, i) && HasIdr(es[i].au);
    } else {
      assert Sends(g, es, n - 1) && HasIdr(es[n - 1].au);
    }
  }

  /**
   Over any run from any state: after enabling an inactive sender, lifting the gate of a gated one, disabling, or a
   keyframe request, no unit without a keyframe goes out before one with.
   */
  lemma RecoversFirst(g: Gate, es: seq<Event>, j: nat, k: nat)
    requires j < k < |es|
    requires match es[j]
      case Enable(gated) => !Run(g, es[..j]).active || (Run(g, es[..j]).sendGated && !gated)
      case Disable => true
      case RequestKeyframe => true
      case AccessUnit(_) => false
    requires Sends(g, es, k) && !HasIdr(es[k].au)
    ensures KeyframeBetween(g, es, j, k)
  {
    assert es[..j + 1][..j] == es[..j];
    RequiredUntilSent(g, es, j, k);
  }

  // ---------------------------------------------------------------- the sender object

  method AuHasIdr(au: Bytes) returns (idr: bool)
    ensures idr <==> HasIdr(au)
  {
    hide Split;
    var nalus := SplitAnnexB(au);
    idr := false;
    for i := 0 to |nalus|
      invariant !idr && forall k :: 0 <= k < i ==> !(nalus[k] != [] && TypeOf(nalus[k][0]) == 5)
    {
      if |nalus[i]| > 0 && TypeOf(nalus[i][0]) == 5 {
        assert nalus[i] == Split(au)[i];
        return true;
      }
    }
  }

  /** Header i of an access unit of n packets whose first has number `first`, transport number `transport` and, if it opens one, frame `frame`. */
  function UnitHeader(i: nat, n: nat, ssrc: u32, first: u16, stamp: u32, transport: u16, frame: Option<u16>, info: u8): RtpHeader
  {
    RtpHeader(i == n - 1, PT_H264, (first + i) % 0x1_0000, stamp, ssrc, None,
      Some(VideoExtension(info, if i == 0 then frame else None, 0, 0, (transport + i) % 0x1_0000)))
  }

  /** Headers of one access unit: consecutive numbers, one timestamp, the marker on the last, the frame number on the first. */
  ghost predicate UnitHeaders(hs: seq<RtpHeader>, n: nat, ssrc: u32, first: u16, stamp: u32, transport: u16, frame: Option<u16>, info: u8)
  {
    forall i :: 0 <= i < |hs| ==> hs[i] == UnitHeader(i, n, ssrc, first, stamp, transport, frame, info)
  }

  /** Numbers, time and frame an access unit starts from. */
  datatype Numbering = Numbering(first: u16, transport: u16, stamp: u32, stride: u32, frame: u16, opening: Option<u16>)

  lemma NumberOf(h: RtpHeader, i: nat, n: nat, ssrc: u32, from: Numbering, info: u8)
    requires h == UnitHeader(i, n, ssrc, from.first, from.stamp, from.transport, from.opening, info)
    ensures h.sequenceNumber == (from.first + i) % 0x1_0000
  {
  }

  /** Bytes of all payloads. */
  function Octets(ps: seq<Bytes>): nat { if ps == [] then 0 else Octets(ps[..|ps| - 1]) + |ps[|ps| - 1]| }

  lemma OctetsSnoc(ps: seq<Bytes>, i: nat)
    requires i < |ps|
    ensures Octets(ps[..i + 1]) == Octets(ps[..i]) + |ps[i]|
  {
    assert ps[..i + 1][..i] == ps[..i];
  }

  lemma AddWrapped(a: u32, n: nat, k: nat)
    ensures ((a + n) % 0x1_0000_0000 + k) % 0x1_0000_0000 == (a + n + k) % 0x1_0000_0000
  {
    var q, r := (a + n) / 0x1_0000_0000, (a + n) % 0x1_0000_0000;
    Arith.DivModUnique(a + n + k, 0x1_0000_0000, q + (r + k) / 0x1_0000_0000, (r + k) % 0x1_0000_0000);
  }

  /** The rollover counters of consecutive packets from index base on. */
  ghost predicate Counted(rocs: seq<u32>, base: nat) { forall i :: 0 <= i < |rocs| ==> rocs[i] == Srtp.Roc(base + i) }

  lemma CountedGrows(rocs: seq<u32>, base: nat, roc: u32)
    requires Counted(rocs, base) && roc == Srtp.Roc(base + |rocs|)
    ensures Counted(rocs + [roc], base)
  {
    hide Srtp.Roc;
  }

  lemma SeqAhead(base: nat, i: nat)
    ensures (Srtp.Seq(base) + i) % 0x1_0000 == Srtp.Seq(base + i)
  {
    var q, r := (base % 0x1_0000 + i) / 0x1_0000, (base % 0x1_0000 + i) % 0x1_0000;
    Arith.DivModUnique(base + i, 0x1_0000, base / 0x1_0000 + q, r);
  }

  class VideoSender {
    const pipe: MediaPipeline.MediaPipeline
    const stream: VideoRtpStream
    var active: bool
    var sendGated: bool
    var keyframeRequired: bool

    ghost function State(): Gate
      reads this
    {
      Gate(active, sendGated, keyframeRequired)
    }

    constructor (pipe: MediaPipeline.MediaPipeline, ssrc: u32, stride: u32, active: bool, gated: bool)
      ensures State() == Gate(active, gated, true) && this.pipe == pipe && fresh(stream)
      ensures stream.ssrc == ssrc && stream.tsStride == stride && stream.firstPacket
      ensures stream.seqNo == 1 && stream.timestamp == 0 && stream.transportSequence == 0 && stream.frameNumber == 1
    {
      this.pipe, this.active, sendGated, keyframeRequired := pipe, active, gated, true;
      stream := new VideoRtpStream(ssrc, stride);
    }

    /** The number a packet that opens an access unit carries. */
    ghost function Opening(): Option<u16>
      reads stream
    {
      if stream.firstPacket then Some(stream.frameNumber) else None
    }

    /** One protected packet per payload, or none; a keyframe that goes out satisfies the requirement. */
    method ProtectAccessUnit(au: Bytes, stride: u32) returns (packets: seq<seq<u8>>, ghost headers: seq<RtpHeader>, ghost rocs: seq<u32>)
      modifies this`keyframeRequired, stream, pipe`packetsSent, pipe`octetsSent, pipe`rtpTimestamp, pipe.sendRoc
      ensures State() == After(old(State()), AccessUnit(au))
      ensures |packets| == |headers| == |rocs| == if Packetises(old(State()), au) then |Package(Packed(au))| else 0
      ensures |packets| > 0 <==> Packetises(old(State()), au)
      ensures forall i :: 0 <= i < |packets| ==>
        packets[i] == MediaPipeline.Wire(pipe.crypto, pipe.sendKeys, headers[i], rocs[i], Package(Packed(au))[i])
      ensures UnitHeaders(headers, |packets|, stream.ssrc, old(stream.seqNo), old(stream.timestamp), old(stream.transportSequence), old(Opening()),
        if HasIdr(au) then 8 else 0x20)
      ensures stream.seqNo == (old(stream.seqNo) + |packets|) % 0x1_0000
      ensures stream.transportSequence == (old(stream.transportSequence) + |packets|) % 0x1_0000
      ensures |packets| > 0 ==> stream.firstPacket && stream.frameNumber == (old(stream.frameNumber) + 1) % 0x1_0000
      ensures |packets| > 0 ==> stream.tsStride == (if stride != 0 then stride else old(stream.tsStride))
      ensures |packets| > 0 ==> stream.timestamp == (old(stream.timestamp) + stream.tsStride) % 0x1_0000_0000
      ensures |packets| == 0 ==> unchanged(stream) && unchanged(pipe) && unchanged(pipe.sendRoc)
      ensures |packets| > 0 ==> pipe.rtpTimestamp == old(stream.timestamp)
      ensures |packets| > 0 ==> pipe.packetsSent == (old(pipe.packetsSent) + |packets|) % 0x1_0000_0000
      ensures |packets| > 0 ==> pipe.octetsSent == (old(pipe.octetsSent) + Octets(Package(Packed(au)))) % 0x1_0000_0000
      ensures forall base: nat {:trigger old(pipe.sendRoc.Awaits(base))} :: old(stream.seqNo) == Srtp.Seq(base) && old(pipe.sendRoc.Awaits(base)) ==>
        Counted(rocs, base) && pipe.sendRoc.Awaits(base + |packets|)
    {
      hide Split, Packed, Package, MediaPipeline.Wire, Octets, UnitHeader;
      packets, headers, rocs := [], [], [];
      if !active || sendGated { return; }
      var idr := AuHasIdr(au);
      if keyframeRequired && !idr { return; }
      var nalus := SplitAnnexB(au);
      var packedAccessUnit := PackUnits(nalus);
      PackedIs(au);
      if |packedAccessUnit| == 0 { return; }
      var payloads := PackageH264NALU(packedAccessUnit);
      SomePayload(packedAccessUnit);
      if stride != 0 { stream.tsStride := stride; }
      label Before:
      packets, headers, rocs := ProtectAll(payloads, if idr then 8 else 0x20);
      forall base: nat | old(stream.seqNo) == Srtp.Seq(base) && old(pipe.sendRoc.Awaits(base))
        ensures Counted(rocs, base) && pipe.sendRoc.Awaits(base + |packets|)
      {
        assert old@Before(pipe.sendRoc.Awaits(base));
      }
      if |packets| > 0 && idr { keyframeRequired := false; }
    }

    /** After i of n packets of an access unit whose first is numbered as `from` says. */
    ghost predicate Underway(from: Numbering, i: nat, n: nat)
      reads stream
    {
      && stream.tsStride == from.stride
      && stream.seqNo == (from.first + i) % 0x1_0000 && stream.transportSequence == (from.transport + i) % 0x1_0000
      && stream.timestamp == (if i == n then (from.stamp + from.stride) % 0x1_0000_0000 else from.stamp)
      && stream.frameNumber == (if i == n then (from.frame + 1) % 0x1_0000 else from.frame)
      && (if i == 0 then Opening() == from.opening else stream.firstPacket == (i == n))
    }

    /** What the sender reports count has grown by these payloads. */
    ghost predicate Tallied(sent: u32, octets: u32, payloads: seq<Bytes>)
      reads pipe
    {
      pipe.packetsSent == (sent + |payloads|) % 0x1_0000_0000 && pipe.octetsSent == (octets + Octets(payloads)) % 0x1_0000_0000
    }

    /** Packet i of n. */
    method ProtectOne(payload: Bytes, info: u8, i: nat, n: nat, ghost from: Numbering, ghost sent: u32, ghost octets: u32, ghost before: seq<Bytes>)
      returns (packet: seq<u8>, ghost header: RtpHeader)
      requires i < n && Underway(from, i, n) && |before| == i && Tallied(sent, octets, before)
      modifies stream, pipe`packetsSent, pipe`octetsSent, pipe`rtpTimestamp, pipe.sendRoc
      ensures Underway(from, i + 1, n) && Tallied(sent, octets, before + [payload])
      ensures header == UnitHeader(i, n, stream.ssrc, from.first, from.stamp, from.transport, from.opening, info) && pipe.rtpTimestamp == from.stamp
      ensures packet == MediaPipeline.Wire(pipe.crypto, pipe.sendKeys, header, pipe.sendRoc.roc, payload)
      ensures forall index: nat {:trigger old(pipe.sendRoc.Awaits(index))} :: header.sequenceNumber == Srtp.Seq(index) && old(pipe.sendRoc.Awaits(index)) ==>
        pipe.sendRoc.At(index) && pipe.sendRoc.Awaits(index + 1)
    {
      hide MediaPipeline.Wire, Octets;
      NextNumber(from.first + i);
      NextNumber(from.transport + i);
      AddWrapped(sent, i, 1);
      AddWrapped(octets, Octets(before), |payload|);
      OctetsSnoc(before + [payload], i);
      assert (before + [payload])[..i] == before && (before + [payload])[..i + 1] == before + [payload];
      var h := stream.NextPacket(i == n - 1, info);
      header := h;
      label Before:
      packet := pipe.ProtectRTP(h, payload);
      forall index: nat | h.sequenceNumber == Srtp.Seq(index) && old(pipe.sendRoc.Awaits(index))
        ensures pipe.sendRoc.At(index) && pipe.sendRoc.Awaits(index + 1)
      {
        assert old@Before(pipe.sendRoc.Awaits(index));
      }
    }

    method ProtectAll(payloads: seq<Bytes>, info: u8) returns (packets: seq<seq<u8>>, ghost headers: seq<RtpHeader>, ghost rocs: seq<u32>)
      requires payloads != []
      modifies stream, pipe`packetsSent, pipe`octetsSent, pipe`rtpTimestamp, pipe.sendRoc
      ensures |packets| == |headers| == |rocs| == |payloads|
      ensures forall i :: 0 <= i < |packets| ==> packets[i] == MediaPipeline.Wire(pipe.crypto, pipe.sendKeys, headers[i], rocs[i], payloads[i])
      ensures UnitHeaders(headers, |payloads|, stream.ssrc, old(stream.seqNo), old(stream.timestamp), old(stream.transportSequence), old(Opening()), info)
      ensures Underway(old(Standing()), |payloads|, |payloads|)
      ensures Tallied(old(pipe.packetsSent), old(pipe.octetsSent), payloads) && pipe.rtpTimestamp == old(stream.timestamp)
      ensures forall base: nat {:trigger old(pipe.sendRoc.Awaits(base))} :: old(stream.seqNo) == Srtp.Seq(base) && old(pipe.sendRoc.Awaits(base)) ==>
        Counted(rocs, base) && pipe.sendRoc.Awaits(base + |payloads|)
    {
      hide MediaPipeline.Wire, Octets, UnitHeader;
      packets, headers, rocs := [], [], [];
      ghost var from, sent, octets := Standing(), pipe.packetsSent, pipe.octetsSent;
      NoOctets();
      assert payloads[..0] == [];
      AtStart(from, sent, octets);
      for i := 0 to |payloads|
        invariant |packets| == |headers| == |rocs| == i
        invariant forall k :: 0 <= k < i ==> packets[k] == MediaPipeline.Wire(pipe.crypto, pipe.sendKeys, headers[k], rocs[k], payloads[k])
        invariant UnitHeaders(headers, |payloads|, stream.ssrc, from.first, from.stamp, from.transport, from.opening, info)
        invariant Underway(from, i, |payloads|) && Tallied(sent, octets, payloads[..i]) && (i > 0 ==> pipe.rtpTimestamp == from.stamp)
        invariant forall base: nat {:trigger old(pipe.sendRoc.Awaits(base))} :: from.first == Srtp.Seq(base) && old(pipe.sendRoc.Awaits(base)) ==>
          Counted(rocs, base) && pipe.sendRoc.Awaits(base + i)
      {
        hide Underway, Tallied;
        ghost var sofar := rocs;
        label Before:
        var packet, header := ProtectOne(payloads[i], info, i, |payloads|, from, sent, octets, payloads[..i]);
        NumberOf(header, i, |payloads|, stream.ssrc, from, info);
        assert payloads[..i + 1] == payloads[..i] + [payloads[i]];
        packets := packets + [packet];
        headers, rocs := headers + [header], rocs + [pipe.sendRoc.roc];
        forall base: nat | from.first == Srtp.Seq(base) && old(pipe.sendRoc.Awaits(base))
          ensures Counted(rocs, base) && pipe.sendRoc.Awaits(base + (i + 1))
        {
          SeqAhead(base, i);
          assert old@Before(pipe.sendRoc.Awaits(base + i));
          assert pipe.sendRoc.At(base + i) && pipe.sendRoc.Awaits(base + i + 1);
          CountedGrows(sofar, base, pipe.sendRoc.roc);
        }
      }
      assert payloads[..|payloads|] == payloads;
    }

    /** Where the stream's numbers stand. */
    ghost function Standing(): Numbering
      reads stream
    {
      Numbering(stream.seqNo, stream.transportSequence, stream.timestamp, stream.tsStride, stream.frameNumber, Opening())
    }

    lemma AtStart(from: Numbering, sent: u32, octets: u32)
      requires from == Standing() && sent == pipe.packetsSent && octets == pipe.octetsSent
      ensures forall n: nat :: n > 0 ==> Underway(from, 0, n)
      ensures Tallied(sent, octets, [])
    {
    }

    method EnableSender(gated: bool)
      modifies this
      ensures State() == After(old(State()), Enable(gated))
    {
      var needsRecovery := !active || (sendGated && !gated);
      active, sendGated := true, gated;
      keyframeRequired := keyframeRequired || needsRecovery;
    }

    method DisableSender()
      modifies this
      ensures State() == After(old(State()), Disable)
    {
      active, sendGated, keyframeRequired := false, false, true;
    }

    method Request()
      modifies this`keyframeRequired
      ensures State() == After(old(State()), RequestKeyframe)
    {
      keyframeRequired := true;
    }
  }

  lemma NoOctets()
    ensures Octets([]) == 0
  {
  }

  lemma PackedIs(au: Bytes)
    ensures Packed(au) == Join(Kept(Split(au)))
  {
  }

  lemma SomePayload(nalu: Bytes)
    requires nalu != []
    ensures |Package(nalu)| > 0
  {
  }

  // ---------------------------------------------------------------- the receiving end

  /** Receiver: units so far of the current access unit, and the reassembly state. */
  datatype Assembly = Assembly(depack: Depack, au: Bytes)

  /** One packet; a marker hands over the access unit collected. */
  function OnPacket(a: Assembly, marker: bool, payload: Bytes): (Assembly, Option<Bytes>)
  {
    var (d, units) := Step(a.depack, payload);
    var au := a.au + Annexed(units);
    if marker && au != [] then (Assembly(d, []), Some(au)) else (Assembly(d, au), None)
  }

  class VideoReceiver {
    const depack: H264Depacketizer
    var au: Bytes

    constructor ()
      ensures fresh(depack) && au == []
    {
      depack := new H264Depacketizer();
      au := [];
    }

    method Receive(marker: bool, payload: Bytes) returns (frame: Option<Bytes>)
      modifies this, depack
      ensures (Assembly(depack.State(), au), frame) == OnPacket(Assembly(old(depack.State()), old(au)), marker, payload)
    {
      var units := depack.Depacketize(payload);
      ghost var before := au;
      for i := 0 to |units|
        invariant au + Annexed(units[i..]) == before + Annexed(units) && depack.State() == Step(old(depack.State()), payload).0
      {
        assert units[i..][1..] == units[i + 1..];
        au := au + [0, 0, 0, 1];
        au := au + units[i];
      }
      assert units[|units|..] == [];
      assert au + [] == au;
      frame := None;
      if marker && |au| > 0 {
        frame := Some(au);
        au := [];
      }
    }
  }

  /** All payloads of one access unit, the marker on the last: what is handed over along the way. */
  function ReceiveAll(a: Assembly, payloads: seq<Bytes>): (Assembly, seq<Bytes>)
    decreases |payloads|
  {
    if payloads == [] then (a, [])
    else
      var (a1, f) := OnPacket(a, |payloads| == 1, payloads[0]);
      var (a2, rest) := ReceiveAll(a1, payloads[1..]);
      (a2, (if f.Some? then [f.value] else []) + rest)
  }

  lemma {:induction false} AnnexedConcat(a: seq<Bytes>, b: seq<Bytes>)
    ensures Annexed(a + b) == Annexed(a) + Annexed(b)
    decreases |a|
  {
    if a == [] {
      assert a + b == b;
    } else {
      assert (a + b)[1..] == a[1..] + b;
      AnnexedConcat(a[1..], b);
      assert Prefix + a[0] + (Annexed(a[1..]) + Annexed(b)) == Prefix + a[0] + Annexed(a[1..]) + Annexed(b);
    }
  }

  lemma {:induction false} ReceivesRun(a: Assembly, payloads: seq<Bytes>)
    requires payloads != []
    ensures var au := a.au + Annexed(H264.Run(a.depack, payloads).1);
      ReceiveAll(a, payloads).1 == if au == [] then [] else [au]
    decreases |payloads|
  {
    hide Step, Annexed;
    var (d, units) := Step(a.depack, payloads[0]);
    if |payloads| == 1 {
      assert payloads[1..] == [];
      assert units + [] == units;
      assert H264.Run(a.depack, payloads).1 == units;
    } else {
      var a1 := Assembly(d, a.au + Annexed(units));
      ReceivesRun(a1, payloads[1..]);
      AnnexedConcat(units, H264.Run(d, payloads[1..]).1);
      assert a1.au + Annexed(H264.Run(d, payloads[1..]).1) == a.au + (Annexed(units) + Annexed(H264.Run(d, payloads[1..]).1));
      assert ReceiveAll(a, payloads).1 == [] + ReceiveAll(a1, payloads[1..]).1;
    }
  }

  /** The receiver hands over one access unit per marker, holding the sender's units. */
  lemma AccessUnitDelivered(d: Depack, au: Bytes)
    requires Kept(Split(au)) != [] && |Packed(au)| <= MAX_FU
    requires |Packed(au)| <= MTU ==> Kept(Split(au))[0] != [] && 1 <= TypeOf(Kept(Split(au))[0][0]) <= 23
    ensures var frames := ReceiveAll(Assembly(d, []), Package(Packed(au))).1;
      |frames| == 1 && Split(frames[0]) == Kept(Split(au))
  {
    hide Split, Packed, Package, Kept, Step, H264.Run;
    AccessUnitRoundTrip(d, au);
    PackedSomething(au);
    SomePayload(Packed(au));
    ReceivesRun(Assembly(d, []), Package(Packed(au)));
    var ns := H264.Run(d, Package(Packed(au))).1;
    assert [] + Annexed(ns) == Annexed(ns);
    SplitNothing();
  }

  lemma PackedSomething(au: Bytes)
    requires Kept(Split(au)) != []
    ensures Packed(au) != []
  {
    hide Split, Kept, Join;
    SplitTidy(au);
    KeptTidy(Split(au));
    FirstUnit(Kept(Split(au)));
  }

  lemma SplitNothing()
    ensures Split([]) == []
  {
  }

  // ---------------------------------------------------------------- the call's video flags

  const DISABLED := 0
  const ENABLED := 1
  const UPGRADE_ACCEPT := 4
  const UPGRADE_REJECT := 5
  const STOPPED := 6
  const UPGRADE_CANCEL := 8
  const UPGRADE_REQUEST := 11

  /** The sender mirrors the flags, and nothing is gated that is not on. */
  ghost predicate Mirrored(localVideo: bool, videoGate: bool, tx: Option<Gate>)
  {
    && (videoGate ==> localVideo)
    && (tx.Some? ==> tx.value.active == localVideo && tx.value.sendGated == videoGate)
  }

  /** A live sender after these events, as in its own runs; no sender stays none. */
  ghost function Passed(tx: Option<Gate>, es: seq<Event>): Option<Gate>
  {
    match tx
    case None => None
    case Some(g) => Some(Run(g, es))
  }

  lemma PassedOne(g: Gate, a: Event, b: Event)
    ensures Run(g, []) == g && Run(g, [a]) == After(g, a) && Run(g, [a, b]) == After(After(g, a), b)
  {
    assert [a][..0] == [];
    assert [a, b][..1] == [a];
  }

  /** An offer that meets a known call sets its video flag alone: when the flags and the sender still agree afterwards. */
  lemma OfferKeepsMirror(localVideo: bool, videoGate: bool, tx: Option<Gate>, isVideo: bool)
    requires Mirrored(localVideo, videoGate, tx)
    ensures Mirrored(isVideo, videoGate, tx) <==> (videoGate ==> isVideo) && (tx.None? || isVideo == localVideo)
  {
  }

  /** So a repeated offer in a running call of the other kind parts them. */
  lemma OfferParts(isVideo: bool, keyframeRequired: bool)
    ensures var tx := Some(Gate(!isVideo, false, keyframeRequired)); Mirrored(!isVideo, false, tx) && !Mirrored(isVideo, false, tx)
  {
  }

  class ManagedCall {
    var localVideo: bool
    var videoGate: bool
    var remoteVideo: bool
    var videoTx: VideoSender?

    ghost function Sender(): Option<Gate>
      reads this, if videoTx != null then {videoTx} else {}
    {
      if videoTx != null then Some(videoTx.State()) else None
    }

    ghost predicate Mirror()
      reads this, if videoTx != null then {videoTx} else {}
    {
      Mirrored(localVideo, videoGate, Sender())
    }

    constructor ()
      ensures Mirror() && !localVideo && !videoGate && videoTx == null
    {
      localVideo, videoGate, remoteVideo, videoTx := false, false, false, null;
    }

    /** An offer placed or received: both directions as it says, the gate and a live sender as they were. */
    method Offer(isVideo: bool)
      requires Mirror()
      modifies this`localVideo, this`remoteVideo
      ensures localVideo == remoteVideo == isVideo && Sender() == old(Sender())
      ensures Mirror() <==> (videoGate ==> isVideo) && (videoTx == null || isVideo == old(localVideo))
    {
      localVideo, remoteVideo := isVideo, isVideo;
    }

    /** Media starts: the new sender takes over the flags, and needs a keyframe. */
    method StartMedia(pipe: MediaPipeline.MediaPipeline, ssrc: u32, stride: u32)
      requires Mirror()
      modifies this`videoTx
      ensures Mirror() && videoTx != null && fresh(videoTx) && videoTx.keyframeRequired && videoTx.pipe == pipe
      ensures fresh(videoTx.stream) && videoTx.stream.ssrc == ssrc && videoTx.stream.tsStride == stride && videoTx.stream.firstPacket && videoTx.stream.seqNo == 1
    {
      videoTx := new VideoSender(pipe, ssrc, stride, localVideo, videoGate);
    }

    /** Media ends: the call lets go of its sender. */
    method StopMedia()
      requires Mirror()
      modifies this`videoTx
      ensures Mirror() && videoTx == null
    {
      videoTx := null;
    }

    /** Sets the sender to the flags. */
    method Apply(on: bool, gated: bool)
      requires gated ==> on
      modifies videoTx
      ensures videoTx != null ==> videoTx.State() == After(old(videoTx.State()), if on then Enable(gated) else Disable)
      ensures videoTx != null ==> videoTx.active == on && videoTx.sendGated == gated
    {
      if videoTx != null {
        if on { videoTx.EnableSender(gated); } else { videoTx.DisableSender(); }
      }
    }

    /** Local request, acceptance or stop; a failed announcement of the first two turns video off again. */
    method TransitionVideo(transition: int, announced: bool) returns (ok: bool)
      requires Mirror()
      modifies this`localVideo, this`videoGate, videoTx
      ensures Mirror()
      ensures ok ==> announced && transition in {UPGRADE_REQUEST, UPGRADE_ACCEPT, STOPPED}
      ensures transition !in {UPGRADE_REQUEST, UPGRADE_ACCEPT, STOPPED} ==> !ok && localVideo == old(localVideo) && videoGate == old(videoGate)
      ensures transition in {UPGRADE_REQUEST, UPGRADE_ACCEPT} ==>
        ok == announced && localVideo == ok && videoGate == (ok && transition == UPGRADE_REQUEST)
      ensures transition == STOPPED ==> ok == announced && !localVideo && !videoGate
      ensures Sender() == Passed(old(Sender()),
        if transition in {UPGRADE_REQUEST, UPGRADE_ACCEPT} then [Enable(transition == UPGRADE_REQUEST)] + (if announced then [] else [Disable])
        else if transition == STOPPED then [Disable] else [])
    {
      if transition == UPGRADE_REQUEST {
        localVideo, videoGate := true, true;
      } else if transition == UPGRADE_ACCEPT {
        localVideo, videoGate := true, false;
      } else if transition == STOPPED {
        localVideo, videoGate := false, false;
      } else {
        return false;
      }
      ghost var before := Sender();
      if before.Some? {
        PassedOne(before.value, Enable(transition == UPGRADE_REQUEST), Disable);
        PassedOne(before.value, Disable, Disable);
      }
      Apply(transition != STOPPED, transition == UPGRADE_REQUEST);
      ok := announced;
      if announced || transition == STOPPED { return; }
      localVideo, videoGate := false, false;
      Apply(false, false);
    }

    method SetVideoEnabled(enabled: bool, announced: bool) returns (ok: bool)
      requires Mirror()
      modifies this`localVideo, this`videoGate, videoTx
      ensures Mirror() && ok == announced && localVideo == (enabled && announced) && !videoGate
      ensures Sender() == Passed(old(Sender()), if !enabled then [Disable] else if announced then [Enable(false)] else [Enable(false), Disable])
    {
      localVideo, videoGate := enabled, false;
      ghost var before := Sender();
      if before.Some? {
        PassedOne(before.value, Enable(false), Disable);
        PassedOne(before.value, Disable, Disable);
      }
      Apply(enabled, false);
      ok := announced;
      if announced || !enabled { return; }
      localVideo := false;
      Apply(false, false);
    }

    /** Inbound state from the peer. */
    method OnVideoStanza(state: int, announced: bool) returns (requestKeyframe: bool)
      requires Mirror()
      modifies this`localVideo, this`videoGate, this`remoteVideo, videoTx
      ensures Mirror()
      ensures state == ENABLED ==> remoteVideo && !videoGate && localVideo == old(localVideo) && requestKeyframe == old(videoGate)
      ensures state == DISABLED || state == STOPPED ==> !remoteVideo && (localVideo, videoGate) == (old(localVideo), old(videoGate)) && !requestKeyframe
      ensures state == UPGRADE_ACCEPT ==> localVideo == announced && !videoGate && requestKeyframe == announced
      ensures state == UPGRADE_REJECT || state == UPGRADE_CANCEL ==> !localVideo && !videoGate && !requestKeyframe
      ensures state !in {ENABLED, DISABLED, STOPPED} ==> remoteVideo == old(remoteVideo)
      ensures Sender() == Passed(old(Sender()),
        if requestKeyframe then [Enable(false)]
        else if state in {UPGRADE_ACCEPT, UPGRADE_REJECT, UPGRADE_CANCEL} then [Disable] else [])
      ensures state !in {ENABLED, DISABLED, STOPPED, UPGRADE_ACCEPT, UPGRADE_REJECT, UPGRADE_CANCEL} ==>
        (localVideo, videoGate) == (old(localVideo), old(videoGate)) && !requestKeyframe && Sender() == old(Sender())
    {
      requestKeyframe := false;
      var disableSender, enableSender, announceEnabled := false, false, false;
      if state == ENABLED {
        remoteVideo := true;
        if localVideo && videoGate {
          videoGate := false;
          enableSender, requestKeyframe := true, true;
        }
      } else if state == DISABLED || state == STOPPED {
        remoteVideo := false;
      } else if state == UPGRADE_ACCEPT {
        localVideo, videoGate, announceEnabled := true, false, true;
      } else if state == UPGRADE_REJECT || state == UPGRADE_CANCEL {
        localVideo, videoGate, disableSender := false, false, true;
      }
      if announceEnabled {
        if !announced {
          localVideo, videoGate := false, false;
          disableSender := true;
        } else {
          enableSender, requestKeyframe := true, true;
        }
      }
      ghost var before := Sender();
      if before.Some? {
        PassedOne(before.value, Enable(false), Disable);
        PassedOne(before.value, Disable, Disable);
      }
      if enableSender { Apply(true, false); } else if disableSender { Apply(false, false); }
    }
  }
}
