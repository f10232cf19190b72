/** Reception statistics of one media source (RFC 3550 section 6.4.1 and Appendices A.1, A.3, A.8). */
module Rtcp {
  import opened Words
  import opened Arith

  const M32 := 0x1_0000_0000
  const M16 := 0x1_0000

  datatype Stats = Stats(
    hasSsrc: bool, ssrc: u32, baseSequence: u16, maxSequence: u16, sequenceCycles: u32, received: u32,
    expectedPrior: u32, receivedPrior: u32, transit: u32, hasTransit: bool, jitterQ4: nat,
    lastSenderReport: u32, lastSenderReportAtMs: nat, hasSenderReport: bool)

  const NoStats := Stats(false, 0, 0, 0, 0, 0, 0, 0, 0, false, 0, 0, 0, false)

  datatype Report = Report(
    ssrc: u32, fractionLost: u8, cumulativeLost: int, extendedHighest: u32, jitter: u32, lastSenderReport: u32, delay: u32)

  /** Newer by less than half the number space. */
  predicate Newer(seqNo: u16, than: u16) { 0 < (seqNo - than) % M16 < 0x8000 }

  /** Sequence bookkeeping of one packet. */
  function Counted(s: Stats, ssrc: u32, seqNo: u16): Stats
  {
    if !s.hasSsrc || s.ssrc != ssrc then
      s.(hasSsrc := true, ssrc := ssrc, baseSequence := seqNo, maxSequence := seqNo, sequenceCycles := 0, received := 1,
         expectedPrior := 0, receivedPrior := 0, hasTransit := false, jitterQ4 := 0, lastSenderReport := 0, hasSenderReport := false)
    else if Newer(seqNo, s.maxSequence) then
      s.(maxSequence := seqNo, sequenceCycles := if seqNo < s.maxSequence then (s.sequenceCycles + M16) % M32 else s.sequenceCycles,
         received := (s.received + 1) % M32)
    else
      s.(received := (s.received + 1) % M32)
  }

  /** Difference of two transit times as a signed 32-bit number, without its sign. */
  function Distance(a: u32, b: u32): nat
  {
    var d := (a - b) % M32;
    if d < 0x8000_0000 then d else M32 - d
  }

  function Jittered(q4: nat, distance: nat): nat
  {
    var decay := (q4 + 8) / 16;
    if q4 + distance >= decay then q4 + distance - decay else 0
  }

  function TransitOf(rtpTimestamp: u32, arrivalMs: nat, clockRate: u32): u32 { (arrivalMs * clockRate / 1000 % M32 - rtpTimestamp) % M32 }

  function Observed(s: Stats, ssrc: u32, seqNo: u16, transit: u32): Stats
  {
    var s1 := Counted(s, ssrc, seqNo);
    var s2 := if s1.hasTransit then s1.(jitterQ4 := Jittered(s1.jitterQ4, Distance(transit, s1.transit))) else s1;
    s2.(transit := transit, hasTransit := true)
  }

  function Expected(s: Stats): u32 { (s.sequenceCycles + s.maxSequence - s.baseSequence + 1) % M32 }

  function ExtendedHighest(s: Stats): u32 { (s.sequenceCycles + s.maxSequence) % M32 }

  /** Lost share of an interval in 256ths; none when more arrived than expected. */
  function FractionLost(expected: u32, received: u32): (f: u8)
  {
    var lost := expected - received;
    if expected != 0 && lost > 0 then Share(lost, expected) else 0
  }

  function Share(lost: nat, total: nat): u8
    requires total > 0
  {
    SharePositive(lost, total);
    Min(lost * 256 / total, 255)
  }

  lemma SharePositive(lost: nat, total: nat)
    requires total > 0
    ensures lost * 256 / total >= 0
  {
  }

  /** The share, rounded down, in 256ths and capped below one whole; what is lost beyond the expected counts as the cap. */
  lemma FractionIsShare(expected: u32, received: u32)
    ensures received >= expected ==> FractionLost(expected, received) == 0
    ensures received < expected ==>
      var (f, lost) := (FractionLost(expected, received), expected - received);
      && f * expected <= 256 * lost && (f < 255 ==> 256 * lost < f * expected + expected) && (f == 255 ==> 255 * expected <= 256 * lost)
  {
    if received < expected {
      var lost := expected - received;
      SharePositive(lost, expected);
      DivBounds(lost * 256, expected);
      var q, f := lost * 256 / expected, FractionLost(expected, received);
      assert f == Min(q, 255);
      MulMono(f, q, expected);
      assert f * expected <= q * expected == expected * q;
    }
  }

  /** Time since the last sender report, in 65536ths of a second. */
  function Delay(s: Stats, nowMs: nat): u32
  {
    var elapsed := if nowMs < s.lastSenderReportAtMs then 0 else nowMs - s.lastSenderReportAtMs;
    if s.hasSenderReport then Min(elapsed * 65536 / 1000, 0xFFFF_FFFF) else 0
  }

  /** Whole 65536ths of a second since the sender report, rounded down: none without one or before it, and never more than the field holds. */
  lemma DelayExact(s: Stats, nowMs: nat)
    ensures !s.hasSenderReport || nowMs <= s.lastSenderReportAtMs ==> Delay(s, nowMs) == 0
    ensures s.hasSenderReport && nowMs > s.lastSenderReportAtMs ==>
      var elapsed, d := nowMs - s.lastSenderReportAtMs, Delay(s, nowMs);
      1000 * d <= 65536 * elapsed && (d < 0xFFFF_FFFF ==> 65536 * elapsed < 1000 * d + 1000)
  {
  }

  function Less(a: u32, b: u32): u32 { (a - b) % M32 }

  /** What a report says, and the interval it starts. */
  function Reported(s: Stats, nowMs: nat): (Stats, Option<Report>)
  {
    if !s.hasSsrc then (s, None)
    else
      (s.(expectedPrior := Expected(s), receivedPrior := s.received),
       Some(Report(
         s.ssrc, FractionLost(Less(Expected(s), s.expectedPrior), Less(s.received, s.receivedPrior)),
         Max(Min(Expected(s) - s.received, 0x7f_ffff), -0x80_0000), ExtendedHighest(s), Min(s.jitterQ4 / 16, 0xFFFF_FFFF),
         s.lastSenderReport, Delay(s, nowMs))))
  }

  class RtcpReceptionStats {
    var hasSsrc: bool
    var ssrc: u32
    var baseSequence: u16
    var maxSequence: u16
    var sequenceCycles: u32
    var received: u32
    var expectedPrior: u32
    var receivedPrior: u32
    var transit: u32
    var hasTransit: bool
    var jitterQ4: nat
    var lastSenderReport: u32
    var lastSenderReportAtMs: nat
    var hasSenderReport: bool

    ghost function State(): Stats
      reads this
    {
      Stats(hasSsrc, ssrc, baseSequence, maxSequence, sequenceCycles, received, expectedPrior, receivedPrior, transit, hasTransit, jitterQ4,
        lastSenderReport, lastSenderReportAtMs, hasSenderReport)
    }

    /** Cycles are whole. */
    ghost predicate Valid()
      reads this
    {
      sequenceCycles % M16 == 0
    }

    constructor ()
      ensures Valid() && State() == NoStats
    {
      hasSsrc, ssrc, baseSequence, maxSequence, sequenceCycles, received := false, 0, 0, 0, 0, 0;
      expectedPrior, receivedPrior, transit, hasTransit, jitterQ4 := 0, 0, 0, false, 0;
      lastSenderReport, lastSenderReportAtMs, hasSenderReport := 0, 0, false;
    }

    method Count(source: u32, sequence: u16)
      requires Valid()
      modifies this
      ensures Valid() && State() == Counted(old(State()), source, sequence)
    {
      if !hasSsrc || ssrc != source {
        StartSource(source, sequence);
      } else {
        Follow(sequence);
      }
    }

    method StartSource(source: u32, sequence: u16)
      requires Valid() && (!hasSsrc || ssrc != source)
      modifies this
      ensures Valid() && State() == Counted(old(State()), source, sequence)
    {
      hide Newer;
      sequenceCycles, expectedPrior, receivedPrior, hasTransit, jitterQ4 := 0, 0, 0, false, 0;
      lastSenderReport, hasSenderReport := 0, false;
      ssrc, hasSsrc, baseSequence, maxSequence, received := source, true, sequence, sequence, 1;
    }

    method Follow(sequence: u16)
      requires Valid() && hasSsrc
      modifies this`sequenceCycles, this`maxSequence, this`received
      ensures Valid() && State() == Counted(old(State()), ssrc, sequence)
    {
      var delta := (sequence - maxSequence) % M16;
      if delta != 0 && delta < 0x8000 {
        CycleAdded(sequenceCycles);
        if sequence < maxSequence { sequenceCycles := (sequenceCycles + M16) % M32; }
        maxSequence := sequence;
      }
      received := (received + 1) % M32;
    }

    method Jitter(now: u32)
      modifies this`jitterQ4
      ensures jitterQ4 == Jittered(old(jitterQ4), Distance(now, transit))
    {
      var d := (now - transit) % M32;
      var distance := if d < 0x8000_0000 then d else M32 - d;
      var decay := (jitterQ4 + 8) / 16;
      jitterQ4 := jitterQ4 + distance;
      jitterQ4 := Max(jitterQ4 - decay, 0);
    }

    method Observe(source: u32, sequence: u16, rtpTimestamp: u32, arrivalMs: nat, clockRate: u32)
      requires Valid()
      modifies this
      ensures Valid() && State() == Observed(old(State()), source, sequence, TransitOf(rtpTimestamp, arrivalMs, clockRate))
    {
      hide Counted, Jittered, Distance, TransitOf;
      Count(source, sequence);
      var now := TransitOf(rtpTimestamp, arrivalMs, clockRate);
      if hasTransit { Jitter(now); }
      transit, hasTransit := now, true;
    }

    method Fraction(expectedInterval: u32, receivedInterval: u32) returns (fractionLost: u8)
      ensures fractionLost == FractionLost(expectedInterval, receivedInterval)
    {
      var lostInterval := expectedInterval - receivedInterval;
      fractionLost := 0;
      if expectedInterval != 0 && lostInterval > 0 {
        SharePositive(lostInterval, expectedInterval);
        var fraction := lostInterval * 256 / expectedInterval;
        if fraction > 255 { fraction := 255; }
        fractionLost := fraction;
      }
    }

    method DelaySince(nowMs: nat) returns (dlsr: u32)
      ensures dlsr == Delay(State(), nowMs)
    {
      dlsr := 0;
      if hasSenderReport {
        var elapsed := nowMs - lastSenderReportAtMs;
        if nowMs < lastSenderReportAtMs { elapsed := 0; }
        var value := elapsed * 65536 / 1000;
        if value > 0xFFFF_FFFF { value := 0xFFFF_FFFF; }
        dlsr := value;
      }
    }

    method ReportNow(nowMs: nat) returns (r: Option<Report>)
      requires Valid()
      modifies this`expectedPrior, this`receivedPrior
      ensures Valid() && (State(), r) == Reported(old(State()), nowMs)
    {
      hide FractionLost, Delay, Less, Expected, ExtendedHighest;
      if !hasSsrc { return None; }
      var dlsr := DelaySince(nowMs);
      var expected, highest := Extent();
      var fractionLost := Fraction(Less(expected, expectedPrior), Less(received, receivedPrior));
      expectedPrior, receivedPrior := expected, received;
      var cumulativeLost: int := expected - received;
      if cumulativeLost < -0x80_0000 { cumulativeLost := -0x80_0000; } else if cumulativeLost > 0x7f_ffff { cumulativeLost := 0x7f_ffff; }
      var jitter := jitterQ4 / 16;
      if jitter > 0xFFFF_FFFF { jitter := 0xFFFF_FFFF; }
      r := Some(Report(ssrc, fractionLost, cumulativeLost, highest, jitter, lastSenderReport, dlsr));
    }

    /** Cycles are whole, so or-ing in the 16-bit number adds it. */
    method Extent() returns (expected: u32, highest: u32)
      requires Valid()
      ensures expected == Expected(State()) && highest == ExtendedHighest(State())
    {
      WholeCycles(sequenceCycles, maxSequence);
      expected := (sequenceCycles + maxSequence - baseSequence + 1) % M32;
      highest := sequenceCycles + maxSequence;
    }
  }

  lemma CycleAdded(cycles: u32)
    requires cycles % M16 == 0
    ensures (cycles + M16) % M32 % M16 == 0
  {
    var q := cycles / M16;
    if cycles + M16 < M32 { DivModUnique(cycles + M16, M32, 0, cycles + M16); DivModUnique(cycles + M16, M16, q + 1, 0); } else { DivModUnique(cycles + M16, M32, 1, 0); }
  }

  /** Whole cycles and a 16-bit number never carry into each other: or-ing them is adding them. */
  lemma WholeCycles(cycles: u32, low: u16)
    requires cycles % M16 == 0
    ensures cycles + low < M32 && (cycles + low) % M32 == cycles + low
  {
  }

  // ---------------------------------------------------------------- the sequence numbers over a run

  function SeqNo(index: nat): u16 { index % M16 }

  /** After packets with the given true indices, in arrival order, all from one source. */
  function CountAll(ssrc: u32, order: seq<nat>): Stats
  {
    if order == [] then NoStats else Counted(CountAll(ssrc, order[..|order| - 1]), ssrc, SeqNo(order[|order| - 1]))
  }

  function Highest(order: seq<nat>): nat
    requires order != []
  {
    if |order| == 1 then order[0] else Max(Highest(order[..|order| - 1]), order[|order| - 1])
  }

  /** Close enough to the highest so far to be placed: half the number space either way. */
  predicate Placeable(highest: nat, index: nat) { highest - 0x8000 <= index < highest + 0x8000 }

  /** A run that starts within the first cycle and can always be placed. */
  predicate Steady(order: seq<nat>)
  {
    order != [] && order[0] < M16
    && forall k :: 1 <= k < |order| ==> Placeable(Highest(order[..k]), order[k])
  }

  /** A number read against the highest so far is newer exactly when it is, for every placeable index. */
  lemma NewerExact(highest: nat, index: nat)
    requires Placeable(highest, index)
    ensures Newer(SeqNo(index), SeqNo(highest)) <==> index > highest
    ensures index > highest ==> (SeqNo(index) < SeqNo(highest) <==> index / M16 == highest / M16 + 1) && index / M16 <= highest / M16 + 1
  {
    var d := index - highest;
    var q, r := highest / M16, highest % M16;
    assert highest == M16 * q + r && index == M16 * q + r + d;
    if r + d < 0 {
      DivModUnique(index, M16, q - 1, r + d + M16);
    } else if r + d < M16 {
      DivModUnique(index, M16, q, r + d);
    } else {
      DivModUnique(index, M16, q + 1, r + d - M16);
    }
  }

  /** The receiver's maximum is the true one: its cycles and number are those of the highest index. */
  predicate Tracks(s: Stats, ssrc: u32, first: nat, highest: nat)
  {
    && s.hasSsrc && s.ssrc == ssrc && s.baseSequence == SeqNo(first) && s.maxSequence == SeqNo(highest)
    && s.sequenceCycles == highest / M16 * M16 % M32
  }

  lemma NextCycle(q: nat)
    ensures (q + 1) * M16 % M32 == (q * M16 % M32 + M16) % M32
  {
    var a, b := q * M16 / M32, q * M16 % M32;
    assert q * M16 == M32 * a + b;
    if b + M16 < M32 {
      DivModUnique((q + 1) * M16, M32, a, b + M16);
    } else {
      DivModUnique((q + 1) * M16, M32, a + 1, b + M16 - M32);
      DivModUnique(b + M16, M32, 1, b + M16 - M32);
    }
  }

  lemma OneCounted(s: Stats, ssrc: u32, first: nat, highest: nat, index: nat)
    requires Tracks(s, ssrc, first, highest) && Placeable(highest, index)
    ensures Tracks(Counted(s, ssrc, SeqNo(index)), ssrc, first, Max(highest, index))
    ensures Counted(s, ssrc, SeqNo(index)).received == (s.received + 1) % M32
  {
    NewerExact(highest, index);
    NextCycle(highest / M16);
  }

  /** The last packet of a steady run comes after a shorter steady run. */
  lemma SteadySnoc(ssrc: u32, order: seq<nat>)
    requires Steady(order) && |order| > 1
    ensures var n, before := |order| - 1, order[..|order| - 1];
      && Steady(before) && before[0] == order[0] && Placeable(Highest(before), order[n]) && Highest(order) == Max(Highest(before), order[n])
      && CountAll(ssrc, order) == Counted(CountAll(ssrc, before), ssrc, SeqNo(order[n]))
  {
    hide Counted;
    var n, before := |order| - 1, order[..|order| - 1];
    forall k | 1 <= k < n ensures Placeable(Highest(before[..k]), before[k]) { assert before[..k] == order[..k]; }
  }

  lemma SteadyOne(ssrc: u32, order: seq<nat>)
    requires Steady(order) && |order| == 1
    ensures Tracks(CountAll(ssrc, order), ssrc, order[0], Highest(order)) && CountAll(ssrc, order).received == 1
  {
    assert order[..0] == [];
    assert CountAll(ssrc, order[..0]) == NoStats;
  }

  lemma {:induction false} RunTracks(ssrc: u32, order: seq<nat>)
    requires Steady(order)
    ensures order != [] && Tracks(CountAll(ssrc, order), ssrc, order[0], Highest(order)) && CountAll(ssrc, order).received == |order| % M32
    decreases |order|
  {
    hide Counted, Tracks, Placeable;
    SteadyStart(order);
    if |order| == 1 {
      SteadyOne(ssrc, order);
    } else {
      var n := |order| - 1;
      var before := order[..n];
      SteadySnoc(ssrc, order);
      RunTracks(ssrc, before);
      OneCounted(CountAll(ssrc, before), ssrc, order[0], Highest(before), order[n]);
      Bump(n);
    }
  }

  lemma Bump(n: nat)
    ensures (n % M32 + 1) % M32 == (n + 1) % M32
  {
    var q, r := n / M32, n % M32;
    if r == M32 - 1 { DivModUnique(n + 1, M32, q + 1, 0); } else { DivModUnique(n + 1, M32, q, r + 1); }
  }

  /** The extended highest sequence number reported is the true highest index, and what is expected reaches up to it. */
  lemma ExtendedIsHighest(ssrc: u32, order: seq<nat>)
    requires Steady(order) && Highest(order) < M32
    ensures ExtendedHighest(CountAll(ssrc, order)) == Highest(order)
    ensures Expected(CountAll(ssrc, order)) == (Highest(order) - order[0] + 1) % M32
  {
    hide Highest, CountAll, Steady;
    SteadyStart(order);
    RunTracks(ssrc, order);
    TracksExtent(CountAll(ssrc, order), ssrc, order[0], Highest(order));
  }

  lemma SteadyStart(order: seq<nat>)
    requires Steady(order)
    ensures order != [] && order[0] < M16
  {
  }

  lemma TracksExtent(s: Stats, ssrc: u32, first: nat, highest: nat)
    requires Tracks(s, ssrc, first, highest) && first < M16 && highest < M32
    ensures ExtendedHighest(s) == highest && Expected(s) == (highest - first + 1) % M32
  {
    var q := highest / M16;
    SmallCycles(q);
    assert highest == M16 * q + highest % M16;
    assert s.sequenceCycles + s.maxSequence == highest;
  }

  lemma SmallCycles(q: nat)
    requires q < M16
    ensures q * M16 % M32 == q * M16
  {
  }

  // ---------------------------------------------------------------- losses

  /** All indices from a to b. */
  function Span(a: nat, b: int): (s: set<nat>)
    requires b >= a - 1
    ensures |s| == b - a + 1 && forall x :: x in s <==> a <= x <= b
    decreases b - a + 1
  {
    if b < a then {} else Span(a, b - 1) + {b}
  }

  predicate Distinct(order: seq<nat>) { forall i, j :: 0 <= i < j < |order| ==> order[i] != order[j] }

  function Delivered(order: seq<nat>): (s: set<nat>)
    ensures forall x :: x in s <==> x in order
  {
    if order == [] then {} else Delivered(order[..|order| - 1]) + {order[|order| - 1]}
  }

  lemma {:induction false} DistinctSize(order: seq<nat>)
    requires Distinct(order)
    ensures |Delivered(order)| == |order|
    decreases |order|
  {
    if order != [] {
      var n := |order| - 1;
      DistinctSize(order[..n]);
      assert order[n] !in order[..n];
    }
  }

  lemma {:induction false} HighestBounds(order: seq<nat>)
    requires order != []
    ensures Highest(order) in order && forall k :: 0 <= k < |order| ==> order[k] <= Highest(order)
    decreases |order|
  {
    if |order| > 1 {
      var before := order[..|order| - 1];
      HighestBounds(before);
      forall k | 0 <= k < |order| ensures order[k] <= Highest(order) { if k < |before| { assert before[k] == order[k]; } }
      assert Highest(before) in order;
    }
  }

  /** With no duplicates and nothing older than the first packet, expected less received counts exactly what is missing. */
  lemma LossIsMissing(ssrc: u32, order: seq<nat>)
    requires Steady(order) && Distinct(order) && (forall k :: 0 <= k < |order| ==> order[k] >= order[0])
    requires Highest(order) < M32 - 1 && |order| < M32
    ensures Highest(order) >= order[0]
    ensures var s, missing := CountAll(ssrc, order), Span(order[0], Highest(order)) - Delivered(order);
      Expected(s) - s.received == |missing|
  {
    hide CountAll, Highest, Delivered, Span;
    HighestBounds(order);
    RunTracks(ssrc, order);
    ExtendedIsHighest(ssrc, order);
    DistinctSize(order);
    var all, got := Span(order[0], Highest(order)), Delivered(order);
    assert got <= all;
    assert all == got + (all - got);
    Unwrapped(Highest(order) - order[0] + 1);
    Unwrapped(|order|);
  }

  lemma Unwrapped(x: nat)
    requires x < M32
    ensures x % M32 == x
  {
  }

  /** So a report tells the highest index, and how many packets up to it are missing as far as 24 bits go. */
  lemma ReportTells(ssrc: u32, order: seq<nat>, nowMs: nat)
    requires Steady(order) && Distinct(order) && (forall k :: 0 <= k < |order| ==> order[k] >= order[0])
    requires Highest(order) < M32 - 1 && |order| < M32
    ensures Highest(order) >= order[0]
    ensures var missing := Span(order[0], Highest(order)) - Delivered(order);
      match Reported(CountAll(ssrc, order), nowMs).1
      case None => false
      case Some(r) => r.ssrc == ssrc && r.extendedHighest == Highest(order) && r.cumulativeLost == (if |missing| < 0x80_0000 then |missing| else 0x7f_ffff)
  {
    hide CountAll, Highest, Delivered, Span, Steady, Expected, ExtendedHighest, FractionLost, Delay, Less;
    LossIsMissing(ssrc, order);
    ExtendedIsHighest(ssrc, order);
    SteadyStart(order);
    RunTracks(ssrc, order);
  }

  // ---------------------------------------------------------------- intervals

  datatype Event = Packet(seqNo: u16, transit: u32) | Snapshot(nowMs: nat)

  function Next(s: Stats, ssrc: u32, e: Event): Stats
  {
    match e
    case Packet(seqNo, transit) => Observed(s, ssrc, seqNo, transit)
    case Snapshot(nowMs) => Reported(s, nowMs).0
  }

  function RunAll(ssrc: u32, es: seq<Event>): Stats
  {
    if es == [] then NoStats else Next(RunAll(ssrc, es[..|es| - 1]), ssrc, es[|es| - 1])
  }

  /** Packets expected and received between the report event k closes and the one before. */
  function Intervals(ssrc: u32, es: seq<Event>): (int, int)
  {
    if es == [] then (0, 0)
    else
      var n := |es| - 1;
      var (a, b) := Intervals(ssrc, es[..n]);
      var s := RunAll(ssrc, es[..n]);
      if es[n].Snapshot? && s.hasSsrc then (a + Less(Expected(s), s.expectedPrior), b + Less(s.received, s.receivedPrior))
      else (a, b)
  }

  /** A packet of the same source leaves the report marks alone; the first one finds them at zero. */
  lemma PacketKeepsMarks(s: Stats, ssrc: u32, seqNo: u16, transit: u32)
    requires s.hasSsrc ==> s.ssrc == ssrc
    ensures var s1 := Observed(s, ssrc, seqNo, transit);
      s1.hasSsrc && s1.ssrc == ssrc
      && (if s.hasSsrc then s1.expectedPrior == s.expectedPrior && s1.receivedPrior == s.receivedPrior else s1.expectedPrior == s1.receivedPrior == 0)
  {
  }

  lemma ReportMoves(s: Stats, nowMs: nat)
    ensures Reported(s, nowMs).0 == if s.hasSsrc then s.(expectedPrior := Expected(s), receivedPrior := s.received) else s
  {
  }

  /** Interval counts telescope: over any run, what all reports counted is the total at the last report. */
  lemma {:induction false} IntervalsTelescope(ssrc: u32, es: seq<Event>)
    ensures var s := RunAll(ssrc, es);
      && (s.hasSsrc ==> s.ssrc == ssrc)
      && Intervals(ssrc, es).0 % M32 == s.expectedPrior && Intervals(ssrc, es).1 % M32 == s.receivedPrior
    decreases |es|
  {
    hide Observed, Reported, Expected, Less;
    if es == [] {
      assert Intervals(ssrc, es) == (0, 0);
    } else {
      var n := |es| - 1;
      IntervalsTelescope(ssrc, es[..n]);
      var s := RunAll(ssrc, es[..n]);
      if !s.hasSsrc { NoSourceYet(ssrc, es[..n]); }
      match es[n]
      case Packet(seqNo, transit) => PacketKeepsMarks(s, ssrc, seqNo, transit);
      case Snapshot(nowMs) =>
        ReportMoves(s, nowMs);
        Telescoped(Intervals(ssrc, es[..n]).0, s.expectedPrior, Expected(s));
        Telescoped(Intervals(ssrc, es[..n]).1, s.receivedPrior, s.received);
    }
  }

  lemma {:induction false} NoSourceYet(ssrc: u32, es: seq<Event>)
    requires !RunAll(ssrc, es).hasSsrc
    ensures RunAll(ssrc, es) == NoStats && Intervals(ssrc, es) == (0, 0)
    decreases |es|
  {
    if es != [] { NoSourceYet(ssrc, es[..|es| - 1]); }
  }

  lemma Telescoped(total: int, prior: u32, now: u32)
    requires total % M32 == prior
    ensures (total + Less(now, prior)) % M32 == now
  {
    var q := total / M32;
    assert total == M32 * q + prior;
    if now >= prior {
      DivModUnique(now - prior, M32, 0, now - prior);
      DivModUnique(total + (now - prior), M32, q, now);
    } else {
      DivModUnique(now - prior, M32, -1, now - prior + M32);
      DivModUnique(total + (now - prior + M32), M32, q + 1, now);
    }
  }

  // ---------------------------------------------------------------- jitter

  /** The largest difference between consecutive transit times of the source so far. */
  function Widest(ssrc: u32, es: seq<Event>): nat
  {
    if es == [] then 0
    else
      var n := |es| - 1;
      var w, s := Widest(ssrc, es[..n]), RunAll(ssrc, es[..n]);
      if es[n].Packet? && s.hasTransit then Max(w, Distance(es[n].transit, s.transit)) else w
  }

  lemma JitterStep(q4: nat, distance: nat, widest: nat)
    requires q4 <= 16 * widest + 7 && distance <= widest
    ensures Jittered(q4, distance) <= 16 * widest + 7
  {
  }

  /** The reported jitter never exceeds the largest transit difference seen. */
  lemma {:induction false} JitterBounded(ssrc: u32, es: seq<Event>)
    ensures RunAll(ssrc, es).jitterQ4 <= 16 * Widest(ssrc, es) + 7
    ensures RunAll(ssrc, es).jitterQ4 / 16 <= Widest(ssrc, es)
    ensures RunAll(ssrc, es).hasSsrc ==> RunAll(ssrc, es).ssrc == ssrc
    ensures RunAll(ssrc, es).hasTransit ==> RunAll(ssrc, es).hasSsrc
    decreases |es|
  {
    hide Distance, Jittered, TransitOf;
    if es != [] {
      var n := |es| - 1;
      JitterBounded(ssrc, es[..n]);
      var s := RunAll(ssrc, es[..n]);
      if es[n].Packet? && s.hasTransit {
        JitterStep(s.jitterQ4, Distance(es[n].transit, s.transit), Widest(ssrc, es));
      }
    }
  }

  /** The estimator of Appendix A.8: the new value is fifteen sixteenths of the old and one whole difference, rounded, and never clamped. */
  lemma Estimator(q4: nat, distance: nat)
    ensures -8 <= 16 * Jittered(q4, distance) - (15 * q4 + 16 * distance) <= 7
  {
  }

  /** A signed 32-bit difference loses nothing while the true one fits. */
  lemma DistanceExact(a: int, b: int)
    requires -0x8000_0000 <= a - b <= 0x8000_0000
    ensures Distance(a % M32, b % M32) == if a < b then b - a else a - b
  {
    var d := (a % M32 - b % M32) % M32;
    var q := a / M32 - b / M32 + (a % M32 - b % M32) / M32;
    assert a - b == M32 * q + d;
    if a - b == M32 * q + d && a - b >= 0 {
      if a - b < M32 { DivModUnique(a - b, M32, 0, a - b); DivModUnique(a - b, M32, q, d); }
    } else {
      DivModUnique(a - b, M32, -1, a - b + M32);
      DivModUnique(a - b, M32, q, d);
    }
  }

  /**
   Two packets sampled `ticks` apart whose arrivals, in ticks of the media clock, lie `ticks + late` apart: their transit
   times differ by `late`, whatever wraps in between.
   */
  lemma LatenessIsDistance(stamp: nat, ticks: nat, ms0: nat, ms1: nat, clockRate: u32, late: int)
    requires -0x8000_0000 <= late <= 0x8000_0000 && ms1 * clockRate / 1000 == ms0 * clockRate / 1000 + ticks + late
    ensures Distance(TransitOf((stamp + ticks) % M32, ms1, clockRate), TransitOf(stamp % M32, ms0, clockRate)) == if late < 0 then -late else late
  {
    var a, b := ms1 * clockRate / 1000, ms0 * clockRate / 1000;
    LessWrapped(a, stamp + ticks);
    LessWrapped(b, stamp);
    DistanceExact(a - (stamp + ticks), b - stamp);
  }

  lemma LessWrapped(a: int, b: int)
    ensures (a % M32 - b % M32) % M32 == (a - b) % M32
  {
    var x := a % M32 - b % M32;
    DivModUnique(a - b, M32, a / M32 - b / M32 + x / M32, x % M32);
  }

  /** The estimate after differences ds, from q4 on. */
  function JitterAll(q4: nat, ds: seq<nat>): nat
  {
    if ds == [] then q4 else Jittered(JitterAll(q4, ds[..|ds| - 1]), ds[|ds| - 1])
  }

  /** Transit times of the packets of a run. */
  function Transits(es: seq<Event>): seq<u32>
  {
    if es == [] then [] else Transits(es[..|es| - 1]) + (match es[|es| - 1] case Packet(_, transit) => [transit] case Snapshot(_) => [])
  }

  /** Differences of neighbouring ones. */
  function Distances(ts: seq<u32>): (ds: seq<nat>)
    ensures |ds| == Max(|ts| - 1, 0)
  {
    if |ts| < 2 then [] else seq(|ts| - 1, i requires 0 <= i < |ts| - 1 => Distance(ts[i + 1], ts[i]))
  }

  lemma DistancesSnoc(ts: seq<u32>, t: u32)
    ensures Distances(ts + [t]) == if ts == [] then [] else Distances(ts) + [Distance(t, ts[|ts| - 1])]
  {
    hide Distance;
    if ts != [] {
      var a, b := Distances(ts + [t]), Distances(ts) + [Distance(t, ts[|ts| - 1])];
      forall i | 0 <= i < |a| ensures a[i] == b[i] { }
    }
  }

  /** Over any run of one source, reports or not, the estimate is made of the differences of neighbouring transit times alone. */
  lemma {:induction false} JitterOfTransits(ssrc: u32, es: seq<Event>)
    ensures RunAll(ssrc, es).jitterQ4 == JitterAll(0, Distances(Transits(es)))
    ensures RunAll(ssrc, es).hasTransit <==> Transits(es) != []
    ensures Transits(es) != [] ==> RunAll(ssrc, es).hasSsrc && RunAll(ssrc, es).ssrc == ssrc && RunAll(ssrc, es).transit == Transits(es)[|Transits(es)| - 1]
    ensures Transits(es) == [] ==> !RunAll(ssrc, es).hasSsrc && RunAll(ssrc, es).jitterQ4 == 0
    decreases |es|
  {
    hide Distance, Jittered, FractionLost, Delay, Less, Newer, Distances, Reported;
    if es == [] {
      FewDistances([]);
    } else {
      var n := |es| - 1;
      JitterOfTransits(ssrc, es[..n]);
      match es[n]
      case Packet(_, transit) =>
        DistancesSnoc(Transits(es[..n]), transit);
        JitterSnoc(Distances(Transits(es[..n])), Distance(transit, RunAll(ssrc, es[..n]).transit));
      case Snapshot(nowMs) =>
        ReportMoves(RunAll(ssrc, es[..n]), nowMs);
        assert Transits(es) == Transits(es[..n]) + [] == Transits(es[..n]);
    }
  }

  lemma FewDistances(ts: seq<u32>)
    requires |ts| < 2
    ensures Distances(ts) == [] && JitterAll(0, Distances(ts)) == 0
  {
  }

  lemma JitterSnoc(ds: seq<nat>, d: nat)
    ensures JitterAll(0, ds + [d]) == Jittered(JitterAll(0, ds), d)
  {
    assert (ds + [d])[..|ds|] == ds;
  }

  /** Differences that are all at least w never let an estimate below 16 w fall, and never let one above come below. */
  lemma {:induction false} JitterNeverFalls(q4: nat, ds: seq<nat>, w: nat, i: nat)
    requires i <= |ds| && forall k :: 0 <= k < |ds| ==> ds[k] >= w
    ensures JitterAll(q4, ds) >= Min(JitterAll(q4, ds[..i]), 16 * w)
    decreases |ds|
  {
    hide Jittered;
    if i == |ds| {
      assert ds[..i] == ds;
    } else {
      var n := |ds| - 1;
      assert ds[..n][..i] == ds[..i];
      JitterNeverFalls(q4, ds[..n], w, i);
      JitterRises(JitterAll(q4, ds[..n]), ds[n], w);
    }
  }

  /** One such difference: up by at least one until the estimate is within 8 of 16 w. */
  lemma JitterRises(q4: nat, d: nat, w: nat)
    requires d >= w
    ensures q4 < 16 * w - 8 ==> Jittered(q4, d) > q4
    ensures q4 <= 16 * w ==> Jittered(q4, d) >= q4
    ensures q4 >= 16 * w ==> Jittered(q4, d) >= 16 * w
  {
  }

  lemma JitterFalls(q4: nat, w: nat)
    ensures q4 >= 16 * w + 8 ==> Jittered(q4, w) < q4
    ensures q4 <= 16 * w + 7 ==> Jittered(q4, w) <= 16 * w + 7
  {
  }

  /** After 16 w such differences the estimate is at least 16 w - 8, and it stays so. */
  lemma {:induction false} JitterReaches(q4: nat, ds: seq<nat>, w: nat)
    requires forall k :: 0 <= k < |ds| ==> ds[k] >= w
    ensures JitterAll(q4, ds) >= Min(q4 + |ds|, 16 * w - 8)
    decreases |ds|
  {
    hide Jittered;
    if ds != [] {
      var n := |ds| - 1;
      JitterReaches(q4, ds[..n], w);
      JitterRises(JitterAll(q4, ds[..n]), ds[n], w);
    }
  }

  /** With every difference w, the estimate settles within 8 of 16 w, in no more steps than it was away. */
  lemma {:induction false} JitterSettles(q4: nat, ds: seq<nat>, w: nat)
    requires forall k :: 0 <= k < |ds| ==> ds[k] == w
    ensures Min(q4 + |ds|, 16 * w - 8) <= JitterAll(q4, ds) <= Max(q4 - |ds|, 16 * w + 7)
    ensures |ds| >= q4 - 16 * w && |ds| >= 16 * w - q4 ==> 16 * w - 8 <= JitterAll(q4, ds) <= 16 * w + 8
    decreases |ds|
  {
    hide Jittered;
    JitterReaches(q4, ds, w);
    if ds != [] {
      var n := |ds| - 1;
      JitterSettles(q4, ds[..n], w);
      JitterFalls(JitterAll(q4, ds[..n]), w);
    }
  }

  /** So over a run whose transit times all differ by at least w from one packet to the next, 16 w + 1 packets are enough to report w - 1. */
  lemma JitterReported(ssrc: u32, es: seq<Event>, w: nat)
    requires |Transits(es)| > 16 * w && forall k :: 0 <= k < |Transits(es)| - 1 ==> Distance(Transits(es)[k + 1], Transits(es)[k]) >= w
    ensures RunAll(ssrc, es).jitterQ4 / 16 >= w - 1
  {
    hide Distance, RunAll, Transits, JitterAll;
    JitterOfTransits(ssrc, es);
    JitterReaches(0, Distances(Transits(es)), w);
  }
}
