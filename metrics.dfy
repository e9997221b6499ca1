/**
 * The fee tracker of simulation/metrics.py. It samples the Dynamic Fee
 * Manager's (base fee, surge fee) pair for one pool, prints one status line
 * per call and detects the edges of CAP events: runs of consecutive samples
 * whose surge fee is positive.
 *
 * The on-chain `getFeeState(poolId)` call is a parameter (`fee`) of the
 * operations that make it, and what `log` prints is returned as the list of
 * lines it emits.
 */
module Metrics {
  import opened Results

  /** The pair that the fee manager's `getFeeState(poolId)` view returns, in parts per million. */
  datatype FeeState = FeeState(baseFee: nat, surgeFee: nat)

  /** The triple `snapshot` returns: base, surge and total fee, in parts per million. */
  datatype FeeSnapshot = FeeSnapshot(baseFee: nat, surgeFee: nat, totalFee: nat)

  /** The handle of the on-chain Dynamic Fee Manager contract a tracker queries. */
  datatype FeeManager = FeeManager(address: string)

  /** The two marker lines of the edge detector. */
  datatype Marker = CapStart | CapEnd

  /** `snapshot`: the sampled components and their sum. */
  function Snapshot(fee: FeeState): (r: FeeSnapshot)
    ensures r.baseFee == fee.baseFee && r.surgeFee == fee.surgeFee
    ensures r.totalFee == r.baseFee + r.surgeFee
  {
    FeeSnapshot(fee.baseFee, fee.surgeFee, fee.baseFee + fee.surgeFee)
  }

  /** A sample shows the pool in a CAP event exactly when its surge fee is positive. */
  predicate InCap(fee: FeeState) {
    fee.surgeFee > 0
  }

  /** The marker one `log` call prints, from the state before the call and the state the sample shows. */
  function EdgeMarker(wasInCap: bool, inCap: bool): (m: Option<Marker>)
    ensures m == Some(CapStart) <==> inCap && !wasInCap
    ensures m == Some(CapEnd) <==> !inCap && wasInCap
    ensures m == None <==> inCap == wasInCap
  {
    if inCap && !wasInCap then Some(CapStart)
    else if !inCap && wasInCap then Some(CapEnd)
    else None
  }

  function MarkerText(m: Marker): string {
    match m
    case CapStart => ">> CAP event START"
    case CapEnd => ">> CAP event END"
  }

  /** Recognises a printed marker line. */
  function ReadMarker(line: string): (m: Option<Marker>)
    ensures m.Some? ==> MarkerText(m.value) == line
  {
    if line == MarkerText(CapStart) then Some(CapStart)
    else if line == MarkerText(CapEnd) then Some(CapEnd)
    else None
  }

  /** Each marker line reads back as the marker it was printed for. */
  lemma MarkerTextRoundTrip(m: Marker)
    ensures ReadMarker(MarkerText(m)) == Some(m)
  {
    if m == CapEnd {
      assert MarkerText(CapEnd)[13] != MarkerText(CapStart)[13];
    }
  }

  function MarkerSeq(m: Option<Marker>): seq<Marker> {
    if m.Some? then [m.value] else []
  }

  function MarkerLines(m: Option<Marker>): seq<string> {
    if m.Some? then [MarkerText(m.value)] else []
  }

  // ---------------------------------------------------------------------
  // The status line: decimal rendering of the fees and its inverse
  // ---------------------------------------------------------------------

  predicate IsDigit(c: char) {
    '0' <= c <= '9'
  }

  predicate AllDigits(s: string) {
    forall i :: 0 <= i < |s| ==> IsDigit(s[i])
  }

  function DigitChar(d: nat): (c: char)
    requires d < 10
    ensures IsDigit(c)
  {
    (48 + d) as char
  }

  function DigitValue(c: char): (d: nat)
    requires IsDigit(c)
    ensures d < 10 && DigitChar(d) == c
  {
    c as int - 48
  }

  /** How an f-string renders a non-negative integer: decimal digits, no leading zero. */
  function Decimal(n: nat): (s: string)
    ensures |s| >= 1 && AllDigits(s)
    ensures s[0] == '0' <==> n == 0
    decreases n
  {
    if n < 10 then [DigitChar(n)] else Decimal(n / 10) + [DigitChar(n % 10)]
  }

  /** The number a string of decimal digits denotes. */
  function DecimalValue(s: string): nat
    requires AllDigits(s)
    decreases |s|
  {
    if s == [] then 0 else DecimalValue(s[..|s| - 1]) * 10 + DigitValue(s[|s| - 1])
  }

  lemma {:induction false} DecimalRoundTrip(n: nat)
    ensures DecimalValue(Decimal(n)) == n
    decreases n
  {
    if n >= 10 {
      var s := Decimal(n);
      assert s[..|s| - 1] == Decimal(n / 10);
      DecimalRoundTrip(n / 10);
    }
  }

  /** The fee part of the status line, as `log` formats it. */
  function FeeLine(snap: FeeSnapshot): string {
    "BaseFee=" + Decimal(snap.baseFee)
    + "ppm, SurgeFee=" + Decimal(snap.surgeFee)
    + "ppm, TotalFee=" + Decimal(snap.totalFee) + "ppm"
  }

  /** Whether `log` puts the prefix and a space in front of the line: only for a non-empty prefix. */
  predicate HasPrefix(prefix: Option<string>) {
    prefix.Some? && prefix.value != ""
  }

  /** Where the fee part starts in a status line. */
  function PrefixLength(prefix: Option<string>): nat {
    if HasPrefix(prefix) then |prefix.value| + 1 else 0
  }

  /** The status line `log` prints for a snapshot. */
  function Message(prefix: Option<string>, snap: FeeSnapshot): (msg: string)
    ensures HasPrefix(prefix) ==> |msg| > |prefix.value| && msg[..|prefix.value| + 1] == prefix.value + " "
    ensures !HasPrefix(prefix) ==> msg == FeeLine(snap)
  {
    if HasPrefix(prefix) then prefix.value + " " + FeeLine(snap) else FeeLine(snap)
  }

  /** Past the prefix and its space, a status line is exactly the fee part. */
  lemma MessageSuffix(prefix: Option<string>, snap: FeeSnapshot)
    ensures PrefixLength(prefix) <= |Message(prefix, snap)|
    ensures Message(prefix, snap)[PrefixLength(prefix)..] == FeeLine(snap)
  {
    if HasPrefix(prefix) {
      assert Message(prefix, snap) == (prefix.value + " ") + FeeLine(snap);
    }
  }

  /** The length of the run of decimal digits at the front of s. */
  function DigitSpan(s: string): (k: nat)
    ensures k <= |s| && AllDigits(s[..k])
    ensures k < |s| ==> !IsDigit(s[k])
  {
    if s == [] || !IsDigit(s[0]) then 0
    else
      var k := 1 + DigitSpan(s[1..]);
      assert s[..k] == [s[0]] + s[1..][..k - 1];
      k
  }

  /** Reads `tag` and then a non-empty run of digits from the front of s. */
  function ReadField(tag: string, s: string): Option<(nat, string)> {
    if |tag| <= |s| && s[..|tag|] == tag then
      var rest := s[|tag|..];
      var k := DigitSpan(rest);
      if k == 0 then None else Some((DecimalValue(rest[..k]), rest[k..]))
    else None
  }

  /** Reads the three fees back out of the fee part of a status line. */
  function ParseFeeLine(line: string): Option<FeeSnapshot> {
    match ReadField("BaseFee=", line)
    case None => None
    case Some((base, r1)) =>
      match ReadField("ppm, SurgeFee=", r1)
      case None => None
      case Some((surge, r2)) =>
        match ReadField("ppm, TotalFee=", r2)
        case None => None
        case Some((total, r3)) => if r3 == "ppm" then Some(FeeSnapshot(base, surge, total)) else None
  }

  lemma {:induction false} DigitSpanOfDigits(d: string, rest: string)
    requires AllDigits(d)
    requires rest == [] || !IsDigit(rest[0])
    ensures DigitSpan(d + rest) == |d|
    decreases |d|
  {
    if d != [] {
      assert (d + rest)[1..] == d[1..] + rest;
      DigitSpanOfDigits(d[1..], rest);
    }
  }

  lemma ReadFieldDecimal(tag: string, n: nat, rest: string)
    requires rest == [] || !IsDigit(rest[0])
    ensures ReadField(tag, tag + Decimal(n) + rest) == Some((n, rest))
  {
    var d := Decimal(n);
    var s := tag + d + rest;
    assert s[..|tag|] == tag;
    assert s[|tag|..] == d + rest;
    DigitSpanOfDigits(d, rest);
    assert (d + rest)[..|d|] == d;
    assert (d + rest)[|d|..] == rest;
    DecimalRoundTrip(n);
  }

  /**
   * The fee part of every status line reads back as the snapshot it was
   * printed from: the sampled base fee, surge fee and their sum.
   */
  lemma FeeLineRoundTrip(snap: FeeSnapshot)
    ensures ParseFeeLine(FeeLine(snap)) == Some(snap)
  {
    var tail3 := "ppm";
    var tail2 := "ppm, TotalFee=" + Decimal(snap.totalFee) + tail3;
    var tail1 := "ppm, SurgeFee=" + Decimal(snap.surgeFee) + tail2;
    assert FeeLine(snap) == "BaseFee=" + Decimal(snap.baseFee) + tail1;
    ReadFieldDecimal("BaseFee=", snap.baseFee, tail1);
    ReadFieldDecimal("ppm, SurgeFee=", snap.surgeFee, tail2);
    ReadFieldDecimal("ppm, TotalFee=", snap.totalFee, tail3);
  }

  // ---------------------------------------------------------------------
  // Sequences of log calls
  // ---------------------------------------------------------------------

  /** The value of the tracker's CAP flag after logging `fees` in order, starting from `inCap`. */
  function StateAfter(inCap: bool, fees: seq<FeeState>): bool {
    if fees == [] then inCap else InCap(fees[|fees| - 1])
  }

  /** The markers printed by logging `fees` in order, starting from CAP flag `inCap`. */
  function Markers(inCap: bool, fees: seq<FeeState>): seq<Marker>
    decreases |fees|
  {
    if fees == [] then []
    else
      var prior := fees[..|fees| - 1];
      Markers(inCap, prior) + MarkerSeq(EdgeMarker(StateAfter(inCap, prior), InCap(fees[|fees| - 1])))
  }

  /** The prefix the stress test passes to `log` at step n. */
  function StepPrefix(n: nat): Option<string> {
    Some("step=" + Decimal(n))
  }

  /** Every line printed by the observation loop of the stress test: one `log(prefix="step=<i>")` per sample. */
  function Transcript(inCap: bool, fees: seq<FeeState>): seq<string>
    decreases |fees|
  {
    if fees == [] then []
    else
      var n := |fees| - 1;
      Transcript(inCap, fees[..n])
      + [Message(StepPrefix(n), Snapshot(fees[n]))]
      + MarkerLines(EdgeMarker(StateAfter(inCap, fees[..n]), InCap(fees[n])))
  }

  function Count(m: Marker, ms: seq<Marker>): nat
    decreases |ms|
  {
    if ms == [] then 0 else Count(m, ms[..|ms| - 1]) + (if ms[|ms| - 1] == m then 1 else 0)
  }

  /** The CAP-event count the tests take: the calls across which the CAP flag flips from false to true. */
  function CapFlips(inCap: bool, fees: seq<FeeState>): nat
    decreases |fees|
  {
    if fees == [] then 0
    else
      var prior := fees[..|fees| - 1];
      CapFlips(inCap, prior) + (if !StateAfter(inCap, prior) && InCap(fees[|fees| - 1]) then 1 else 0)
  }

  lemma {:induction false} CountAppend(m: Marker, ms: seq<Marker>, extra: seq<Marker>)
    requires |extra| <= 1
    ensures Count(m, ms + extra) == Count(m, ms) + Count(m, extra)
  {
    if extra != [] {
      assert (ms + extra)[..|ms + extra| - 1] == ms;
      assert extra[..0] == [];
      assert Count(m, extra) == Count(m, []) + (if extra[0] == m then 1 else 0);
    } else {
      assert ms + extra == ms;
    }
  }

  /** Each call prints at most one marker, so a run prints no more markers than it has samples. */
  lemma {:induction false} MarkersAtMostOnePerCall(inCap: bool, fees: seq<FeeState>)
    ensures |Markers(inCap, fees)| <= |fees|
    decreases |fees|
  {
    if fees != [] {
      MarkersAtMostOnePerCall(inCap, fees[..|fees| - 1]);
    }
  }

  /**
   * Markers strictly alternate: the first one is START from a NOT_IN_CAP
   * tracker (END from an IN_CAP one), no two neighbours are equal, and the last
   * one agrees with the final CAP flag; without markers the flag is unchanged.
   */
  lemma {:induction false} MarkersAlternate(inCap: bool, fees: seq<FeeState>)
    ensures var ms := Markers(inCap, fees);
      (forall i :: 0 <= i < |ms| - 1 ==> ms[i] != ms[i + 1])
      && (ms != [] ==> ms[0] == (if inCap then CapEnd else CapStart))
      && (ms != [] ==> ms[|ms| - 1] == (if StateAfter(inCap, fees) then CapStart else CapEnd))
      && (ms == [] ==> StateAfter(inCap, fees) == inCap)
    decreases |fees|
  {
    if fees != [] {
      var prior := fees[..|fees| - 1];
      MarkersAlternate(inCap, prior);
      var before := Markers(inCap, prior);
      var added := MarkerSeq(EdgeMarker(StateAfter(inCap, prior), InCap(fees[|fees| - 1])));
      assert Markers(inCap, fees) == before + added;
      if added == [] {
        assert Markers(inCap, fees) == before;
      }
    }
  }

  /**
   * STARTs minus ENDs is the change of the CAP flag; from a fresh tracker it is
   * 0 or 1 and equals the current flag.
   */
  lemma {:induction false} StartEndBalance(inCap: bool, fees: seq<FeeState>)
    ensures var ms := Markers(inCap, fees);
      Count(CapStart, ms) - Count(CapEnd, ms)
      == (if StateAfter(inCap, fees) then 1 else 0) - (if inCap then 1 else 0)
    ensures !inCap ==> var ms := Markers(inCap, fees);
      Count(CapStart, ms) - Count(CapEnd, ms) == (if StateAfter(inCap, fees) then 1 else 0)
    decreases |fees|
  {
    if fees != [] {
      var prior := fees[..|fees| - 1];
      StartEndBalance(inCap, prior);
      var added := MarkerSeq(EdgeMarker(StateAfter(inCap, prior), InCap(fees[|fees| - 1])));
      CountAppend(CapStart, Markers(inCap, prior), added);
      CountAppend(CapEnd, Markers(inCap, prior), added);
      if added != [] {
        assert Count(CapStart, added) == Count(CapStart, []) + (if added[0] == CapStart then 1 else 0);
        assert Count(CapEnd, added) == Count(CapEnd, []) + (if added[0] == CapEnd then 1 else 0);
      }
    }
  }

  /** Counting false-to-true flips of the CAP flag, as the tests do, counts exactly the STARTs printed. */
  lemma {:induction false} CapFlipsCountStarts(inCap: bool, fees: seq<FeeState>)
    ensures CapFlips(inCap, fees) == Count(CapStart, Markers(inCap, fees))
    decreases |fees|
  {
    if fees != [] {
      var prior := fees[..|fees| - 1];
      CapFlipsCountStarts(inCap, prior);
      var added := MarkerSeq(EdgeMarker(StateAfter(inCap, prior), InCap(fees[|fees| - 1])));
      CountAppend(CapStart, Markers(inCap, prior), added);
      if added != [] {
        assert Count(CapStart, added) == Count(CapStart, []) + (if added[0] == CapStart then 1 else 0);
      }
    }
  }

  /** What one more sample adds to the CAP flag, the markers and the flip count of a run. */
  lemma ExtendRun(inCap: bool, fees: seq<FeeState>, step: nat)
    requires step < |fees|
    ensures StateAfter(inCap, fees[..step + 1]) == InCap(fees[step])
    ensures Markers(inCap, fees[..step + 1])
         == Markers(inCap, fees[..step]) + MarkerSeq(EdgeMarker(StateAfter(inCap, fees[..step]), InCap(fees[step])))
    ensures CapFlips(inCap, fees[..step + 1])
         == CapFlips(inCap, fees[..step]) + (if !StateAfter(inCap, fees[..step]) && InCap(fees[step]) then 1 else 0)
  {
    assert fees[..step + 1][..step] == fees[..step];
  }

  /** The lines of one more `log` call extend the transcript of a run. */
  lemma ExtendTranscript(inCap: bool, fees: seq<FeeState>, step: nat, emitted: seq<string>, lines: seq<string>)
    requires step < |fees|
    requires emitted == Transcript(inCap, fees[..step])
    requires lines == [Message(StepPrefix(step), Snapshot(fees[step]))]
                      + MarkerLines(EdgeMarker(StateAfter(inCap, fees[..step]), InCap(fees[step])))
    ensures emitted + lines == Transcript(inCap, fees[..step + 1])
  {
    assert fees[..step + 1][..step] == fees[..step];
  }

  // ---------------------------------------------------------------------
  // The tracker object
  // ---------------------------------------------------------------------

  class FeeTracker {
    var dfm: FeeManager
    var poolId: int
    /** True while the last sample showed a positive surge fee (IN_CAP). */
    var lastInCap: bool

    /** A new tracker is bound to one contract and pool and starts NOT_IN_CAP. */
    constructor (dfmContract: FeeManager, pool: int)
      ensures dfm == dfmContract && poolId == pool
      ensures !lastInCap
    {
      dfm := dfmContract;
      poolId := pool;
      lastInCap := false;
    }

    /**
     * `log`: `fee` is what `getFeeState(poolId)` returns at the moment of the
     * call. Prints the status line, then START on a NOT_IN_CAP to IN_CAP edge
     * or END on an IN_CAP to NOT_IN_CAP edge, and stores the new CAP flag.
     * Nothing but the CAP flag changes.
     */
    method Log(prefix: Option<string>, fee: FeeState) returns (emitted: seq<string>)
      modifies this`lastInCap
      ensures lastInCap == InCap(fee)
      ensures emitted == [Message(prefix, Snapshot(fee))] + MarkerLines(EdgeMarker(old(lastInCap), InCap(fee)))
    {
      var snap := Snapshot(fee);
      var inCap := snap.surgeFee > 0;
      var msg := FeeLine(snap);
      if prefix.Some? && prefix.value != "" {
        msg := prefix.value + " " + msg;
      }
      emitted := [msg];
      if inCap && !lastInCap {
        emitted := emitted + [MarkerText(CapStart)];
      } else if !inCap && lastInCap {
        emitted := emitted + [MarkerText(CapEnd)];
      }
      lastInCap := inCap;
    }
  }

  /**
   * The observation loop of the stress test: one `log(prefix="step=<i>")` per
   * sample, counting CAP events by watching the tracker's CAP flag flip from
   * false to true. The count equals the number of STARTs printed.
   */
  method ObserveSteps(tracker: FeeTracker, fees: seq<FeeState>) returns (emitted: seq<string>, markers: seq<Marker>, capEventCount: nat)
    modifies tracker`lastInCap
    ensures tracker.lastInCap == StateAfter(old(tracker.lastInCap), fees)
    ensures emitted == Transcript(old(tracker.lastInCap), fees)
    ensures markers == Markers(old(tracker.lastInCap), fees)
    ensures capEventCount == Count(CapStart, Markers(old(tracker.lastInCap), fees))
  {
    ghost var start := tracker.lastInCap;
    emitted, markers, capEventCount := [], [], 0;
    for step := 0 to |fees|
      invariant tracker.lastInCap == StateAfter(start, fees[..step])
      invariant emitted == Transcript(start, fees[..step])
      invariant markers == Markers(start, fees[..step])
      invariant capEventCount == CapFlips(start, fees[..step])
    {
      ExtendRun(start, fees, step);
      var prevInCap := tracker.lastInCap;
      var lines := tracker.Log(StepPrefix(step), fees[step]);
      ExtendTranscript(start, fees, step, emitted, lines);
      emitted := emitted + lines;
      // the marker this call printed, read back from its second line
      if |lines| > 1 {
        var edge := EdgeMarker(prevInCap, InCap(fees[step]));
        MarkerTextRoundTrip(edge.value);
        markers := markers + MarkerSeq(ReadMarker(lines[1]));
      }
      if tracker.lastInCap && !prevInCap {
        capEventCount := capEventCount + 1;
      }
    }
    assert fees[..|fees|] == fees;
    CapFlipsCountStarts(start, fees);
  }
}
