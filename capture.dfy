/**
 * The do-while capture loop of `main` as a state machine over values. One
 * `Step` is one iteration: lower the gain by 1 dB if the previous dwell was
 * saturated (a failed gain-set ends the program with 1), stamp the gain into
 * the header, clear the buffer and the receive metadata, receive, classify the
 * outcome (error, overrun, clean), stamp the sample count and write one file.
 * The device is abstracted away: each receive and each gain-set is an input.
 */
module CaptureLoop {

  import opened Saturation
  import opened FileNames

  /** Values of `std::uint32_t`; arithmetic on them wraps modulo 2^32. */
  type U32 = x: int | 0 <= x < 0x1_0000_0000

  /** What `bladerf_sync_rx` reports for one dwell, and what it left in the buffer. */
  datatype RxOutcome =
    | RxError                                           // non-zero status; `meta` is left as cleared
    | RxOverrun(actualCount: nat, written: seq<I16>)    // status 0 with the overrun flag set
    | RxOk(actualCount: nat, written: seq<I16>)         // status 0 without it

  /**
   * The device never reports more samples than the buffer holds, nor writes
   * past its end: `written` is the prefix of the buffer it filled.
   */
  predicate Delivers(rx: RxOutcome, bufferLength: nat)
  {
    rx.RxError? || (2 * rx.actualCount <= bufferLength && |rx.written| <= bufferLength)
  }

  predicate DeliversAll(ds: seq<DwellInput>, bufferLength: nat)
  {
    forall i | 0 <= i < |ds| :: Delivers(ds[i].rx, bufferLength)
  }

  /** The inputs of one iteration: the outcome of a gain-set, if one is made, the receive, and the clock. */
  datatype DwellInput = DwellInput(gainSetOk: bool, rx: RxOutcome, stamp: Stamp)

  /** The fields of `IqPacket` that change from dwell to dwell. */
  datatype Header = Header(rxGain: int, numSamples: nat)

  /**
   * One written file: the clock reading it is named after, the header and
   * the int16 values that follow it.
   */
  datatype CaptureFile = CaptureFile(stamp: Stamp, header: Header, payload: seq<I16>)
  {
    /** The path `getFilenameStr` produces for the file (line 316). */
    function Name(): string
    {
      FileName(stamp)
    }
  }

  datatype State = State(
    rxGain: int, saturated: bool, overrunCounter: U32, header: Header,
    buffer: seq<I16>, files: seq<CaptureFile>)

  /** The state after an iteration, and whether `main` returned 1 during it. */
  datatype Next = Next(state: State, aborted: bool)

  /**
   * `2*x` computed in a 32-bit unsigned type, as `bufferSize` at line 187 and
   * the value count `2*meta.actual_count` at line 320 are: exact below 2^31,
   * short by 2^32 from there on.
   */
  function DoubledU32(x: U32): (r: U32)
    ensures x < 0x8000_0000 ==> r == 2 * x
    ensures x >= 0x8000_0000 ==> r == 2 * x - 0x1_0000_0000
  {
    (2 * x) % 0x1_0000_0000
  }

  /** From 2^31 requested samples on, the computed buffer size is smaller than the receive needs. */
  lemma BufferSizeWraps(sampleLength: U32)
    requires sampleLength >= 0x8000_0000
    ensures DoubledU32(sampleLength) < 2 * sampleLength
    ensures DoubledU32(0x8000_0000) == 0
  {
  }

  /**
   * The state when the loop is entered: gain as set during configuration, no
   * saturation, no overruns, a zeroed buffer of `2*sampleLength` values, no
   * file yet, and `numSamples` preset to `sampleLength` (line 253). The
   * header's gain is indeterminate in the source; it is 0 here and is
   * overwritten before any file is written.
   */
  function Start(sampleLength: nat, initialGain: int): (s: State)
    ensures |s.buffer| == 2 * sampleLength && !Saturated(s.buffer)
  {
    State(initialGain, false, 0, Header(0, sampleLength), Zeros(2 * sampleLength), [])
  }

  /** The buffer after the receive: what the device wrote over the zeros `memset` left. */
  function Received(bufferLength: nat, rx: RxOutcome): (b: seq<I16>)
    requires Delivers(rx, bufferLength)
    ensures |b| == bufferLength
  {
    if rx.RxError? then Zeros(bufferLength) else rx.written + Zeros(bufferLength - |rx.written|)
  }

  /**
   * `meta.actual_count` as line 314 stamps it: cleared by `memset` at line
   * 288 and set only by a receive with status 0. It never announces more
   * samples than a buffer the device delivers into holds.
   */
  function ActualCount(rx: RxOutcome): (count: nat)
    ensures rx.RxError? ==> count == 0
    ensures forall bufferLength: nat | Delivers(rx, bufferLength) :: 2 * count <= bufferLength
  {
    if rx.RxError? then 0 else rx.actualCount
  }

  /** One iteration of the do-while at lines 264-325. */
  function Step(s: State, d: DwellInput): (n: Next)
    requires Delivers(d.rx, |s.buffer|)
    ensures |n.state.buffer| == |s.buffer|
  {
    var gain := if s.saturated then s.rxGain - 1 else s.rxGain;
    if s.saturated && !d.gainSetOk then
      Next(s.(rxGain := gain), true)
    else
      var buffer := Received(|s.buffer|, d.rx);
      var header := Header(gain, ActualCount(d.rx));
      var file := CaptureFile(d.stamp, header, buffer[..2 * header.numSamples]);
      Next(State(gain,
                 d.rx.RxOk? && Saturated(buffer),
                 if d.rx.RxOverrun? then (s.overrunCounter + 1) % 0x1_0000_0000 else s.overrunCounter,
                 header, buffer, s.files + [file]),
           false)
  }

  /**
   * The whole loop: one iteration per input until the inputs run out (the
   * collection duration has elapsed) or an iteration returns 1.
   */
  function Run(s: State, ds: seq<DwellInput>): (n: Next)
    requires DeliversAll(ds, |s.buffer|)
    ensures |n.state.buffer| == |s.buffer|
    decreases |ds|
  {
    if ds == [] then Next(s, false)
    else
      var n := Step(s, ds[0]);
      if n.aborted then n else Run(n.state, ds[1..])
  }

  /** How many of the inputs report an overrun. */
  function Overruns(ds: seq<DwellInput>): nat
  {
    if ds == [] then 0 else (if ds[0].rx.RxOverrun? then 1 else 0) + Overruns(ds[1..])
  }

  /** The header's sample count announces exactly the int16 values that follow it. */
  predicate Framed(f: CaptureFile)
  {
    |f.payload| == 2 * f.header.numSamples
  }

  /** From file to file the recorded gain stays or drops by exactly 1 dB. */
  predicate StepsDown(files: seq<CaptureFile>)
  {
    forall i | 0 < i < |files| ::
      files[i].header.rxGain == files[i - 1].header.rxGain ||
      files[i].header.rxGain == files[i - 1].header.rxGain - 1
  }

  predicate FilesWellFormed(files: seq<CaptureFile>)
  {
    (forall i | 0 <= i < |files| :: Framed(files[i])) && StepsDown(files)
  }

  /** The last file records the gain currently in effect. */
  predicate Coherent(s: State)
  {
    s.files != [] ==> s.files[|s.files| - 1].header.rxGain == s.rxGain
  }

  // ----- one iteration -----

  /**
   * Gain law: the gain drops by exactly 1 dB when the previous dwell was
   * saturated and is unchanged otherwise; the iteration returns 1 exactly when
   * that drop's gain-set fails; otherwise the header carries the gain in effect.
   */
  lemma StepGainLaw(s: State, d: DwellInput)
    requires Delivers(d.rx, |s.buffer|)
    ensures var n := Step(s, d);
      n.state.rxGain == (if s.saturated then s.rxGain - 1 else s.rxGain) &&
      (n.aborted <==> s.saturated && !d.gainSetOk) &&
      (!n.aborted ==> n.state.header.rxGain == n.state.rxGain)
  {
  }

  /**
   * After an iteration the flag says whether a clean receive left a clipped
   * value anywhere in the buffer, which is whether the device wrote one:
   * the zeroed rest of the buffer never counts.
   */
  lemma StepSaturation(s: State, d: DwellInput)
    requires Delivers(d.rx, |s.buffer|)
    ensures var n := Step(s, d);
      !n.aborted ==> (n.state.saturated <==> d.rx.RxOk? && Saturated(d.rx.written))
  {
    if !d.rx.RxError? {
      ZeroTailNeverSaturates(d.rx.written, |s.buffer| - |d.rx.written|);
    }
  }

  /** An error or overrun dwell never lowers the gain of the next dwell. */
  lemma UncleanDwellKeepsNextGain(s: State, d1: DwellInput, d2: DwellInput)
    requires Delivers(d1.rx, |s.buffer|) && Delivers(d2.rx, |s.buffer|)
    requires !d1.rx.RxOk? && !Step(s, d1).aborted
    ensures var s1 := Step(s, d1).state;
      !Step(s1, d2).aborted && Step(s1, d2).state.rxGain == s1.rxGain
  {
  }

  /**
   * The overrun counter goes up by one (modulo 2^32) exactly on an overrun
   * dwell that completes; an iteration that does not return writes one file,
   * and one that returns writes none and leaves the counter.
   */
  lemma StepCounts(s: State, d: DwellInput)
    requires Delivers(d.rx, |s.buffer|)
    ensures var n := Step(s, d);
      !n.aborted ==>
        n.state.overrunCounter == (if d.rx.RxOverrun? then (s.overrunCounter + 1) % 0x1_0000_0000 else s.overrunCounter) &&
        |n.state.files| == |s.files| + 1
    ensures var n := Step(s, d);
      n.aborted ==> n.state.overrunCounter == s.overrunCounter && n.state.files == s.files
  {
  }

  /** An iteration keeps the files written before it. */
  lemma StepKeepsFiles(s: State, d: DwellInput)
    requires Delivers(d.rx, |s.buffer|)
    ensures var n := Step(s, d);
      |s.files| <= |n.state.files| && n.state.files[..|s.files|] == s.files
  {
  }

  /**
   * The file of an iteration is named after the clock reading and carries the
   * header of the dwell, whose sample count is `actual_count` (0 after an
   * error, as `meta` was cleared); it holds `2*actual_count` values of the
   * buffer, which are what the device wrote there followed by zeros.
   */
  lemma StepFrames(s: State, d: DwellInput)
    requires Delivers(d.rx, |s.buffer|)
    ensures var n := Step(s, d);
      !n.aborted ==>
        |n.state.files| == |s.files| + 1 &&
        var f := n.state.files[|s.files|];
        f.Name() == FileName(d.stamp) &&
        f.header == n.state.header && f.header.numSamples == ActualCount(d.rx) && Framed(f) &&
        (forall i | 0 <= i < |f.payload| :: f.payload[i] == (if i < |d.rx.written| && !d.rx.RxError? then d.rx.written[i] else 0))
  {
  }

  /**
   * Line 320 as written: a clean dwell of 2^31 samples into a buffer of 2^32
   * values is announced by its header as 2^31 samples and framed with 2^32
   * values, but the value count computed in `unsigned int` is 0, so the
   * source writes none of them.
   */
  lemma PayloadLengthWraps(initialGain: int, stamp: Stamp)
    ensures var n := Step(Start(0x8000_0000, initialGain), DwellInput(true, RxOk(0x8000_0000, []), stamp));
      !n.aborted && |n.state.files| == 1 &&
      n.state.files[0].header.numSamples == 0x8000_0000 && |n.state.files[0].payload| == 0x1_0000_0000 &&
      DoubledU32(n.state.files[0].header.numSamples) == 0
  {
  }

  // ----- the whole loop -----

  /** A prefix of a prefix is a prefix. */
  lemma PrefixOfPrefix(a: seq<CaptureFile>, b: seq<CaptureFile>, c: seq<CaptureFile>)
    requires |c| <= |b| <= |a| && a[..|b|] == b && b[..|c|] == c
    ensures a[..|c|] == c
  {
    assert a[..|c|] == a[..|b|][..|c|];
  }

  /**
   * The loop writes exactly one file per completed iteration and keeps the
   * files written before; it returns 1 only at an iteration whose gain-set
   * failed, and otherwise runs every iteration.
   */
  lemma {:induction false} RunOneFilePerDwell(s: State, ds: seq<DwellInput>)
    requires DeliversAll(ds, |s.buffer|)
    ensures var n := Run(s, ds); var k := |n.state.files| - |s.files|;
      |s.files| <= |n.state.files| && n.state.files[..|s.files|] == s.files &&
      (!n.aborted ==> k == |ds|) &&
      (n.aborted ==> k < |ds| && !ds[k].gainSetOk)
    decreases |ds|
  {
    if ds != [] {
      RunUnroll(s, ds);
      StepCounts(s, ds[0]);
      StepKeepsFiles(s, ds[0]);
      var n1 := Step(s, ds[0]);
      if !n1.aborted {
        RunOneFilePerDwell(n1.state, ds[1..]);
        var n := Run(n1.state, ds[1..]);
        PrefixOfPrefix(n.state.files, n1.state.files, s.files);
      }
    }
  }

  /** Gain never increases, and drops by at most 1 dB per iteration. */
  lemma {:induction false} RunGainBounds(s: State, ds: seq<DwellInput>)
    requires DeliversAll(ds, |s.buffer|)
    ensures s.rxGain - |ds| <= Run(s, ds).state.rxGain <= s.rxGain
    decreases |ds|
  {
    if ds != [] {
      var n1 := Step(s, ds[0]);
      if !n1.aborted {
        RunGainBounds(n1.state, ds[1..]);
      }
    }
  }

  /** Adding `o` and then `r` to a 32-bit counter is adding `o + r` modulo 2^32. */
  lemma ModIncrement(c: U32, c1: U32, cn: U32, o: nat, r: nat)
    requires o <= 1 && c1 == (c + o) % 0x1_0000_0000 && cn == (c1 + r) % 0x1_0000_0000
    ensures cn == (c + (o + r)) % 0x1_0000_0000
  {
    if c + o == 0x1_0000_0000 {
      assert (c + o) % 0x1_0000_0000 == 0;
      assert (c + (o + r)) == 0x1_0000_0000 + r;
    }
  }

  /** Counting the overruns of a prefix splits off its first input. */
  lemma OverrunsPrefix(ds: seq<DwellInput>, k: nat)
    requires 1 <= k <= |ds|
    ensures Overruns(ds[..k]) == (if ds[0].rx.RxOverrun? then 1 else 0) + Overruns(ds[1..][..k - 1])
  {
    assert ds[..k][1..] == ds[1..][..k - 1];
  }

  /**
   * A counter that took the first input of a prefix and then the overruns of
   * the rest of it holds the overruns of the whole prefix.
   */
  lemma CounterStep(ds: seq<DwellInput>, k: nat, c: U32, c1: U32, cn: U32)
    requires 1 <= k <= |ds|
    requires c1 == (if ds[0].rx.RxOverrun? then (c + 1) % 0x1_0000_0000 else c)
    requires cn == (c1 + Overruns(ds[1..][..k - 1])) % 0x1_0000_0000
    ensures cn == (c + Overruns(ds[..k])) % 0x1_0000_0000
  {
    OverrunsPrefix(ds, k);
    ModIncrement(c, c1, cn, if ds[0].rx.RxOverrun? then 1 else 0, Overruns(ds[1..][..k - 1]));
  }

  /** The loop unrolled once: an aborting iteration ends it, any other passes on its state. */
  lemma RunUnroll(s: State, ds: seq<DwellInput>)
    requires DeliversAll(ds, |s.buffer|) && ds != []
    ensures var n1 := Step(s, ds[0]);
      DeliversAll(ds[1..], |n1.state.buffer|) &&
      Run(s, ds) == (if n1.aborted then n1 else Run(n1.state, ds[1..]))
  {
  }

  /** The counter equals the number of overrun dwells the loop completed, modulo 2^32. */
  lemma {:induction false} RunCountsOverruns(s: State, ds: seq<DwellInput>)
    requires DeliversAll(ds, |s.buffer|)
    ensures var n := Run(s, ds); var k := |n.state.files| - |s.files|;
      0 <= k <= |ds| && n.state.overrunCounter == (s.overrunCounter + Overruns(ds[..k])) % 0x1_0000_0000
    decreases |ds|
  {
    if ds != [] {
      RunUnroll(s, ds);
      var n1 := Step(s, ds[0]);
      if n1.aborted {
        assert ds[..0] == [];
      } else {
        StepCounts(s, ds[0]);
        var rest := ds[1..];
        RunCountsOverruns(n1.state, rest);
        var n := Run(n1.state, rest);
        var k := |n.state.files| - |s.files|;
        CounterStep(ds, k, s.overrunCounter, n1.state.overrunCounter, n.state.overrunCounter);
      }
    }
  }

  /**
   * Every file the loop writes is framed, and the gains recorded in
   * successive files step down by 0 or 1 dB.
   */
  lemma {:induction false} RunFilesWellFormed(s: State, ds: seq<DwellInput>)
    requires DeliversAll(ds, |s.buffer|)
    requires FilesWellFormed(s.files) && Coherent(s)
    ensures var n := Run(s, ds);
      FilesWellFormed(n.state.files) && (!n.aborted ==> Coherent(n.state))
    decreases |ds|
  {
    if ds != [] {
      var n1 := Step(s, ds[0]);
      if !n1.aborted {
        StepFrames(s, ds[0]);
        assert FilesWellFormed(n1.state.files);
        RunFilesWellFormed(n1.state, ds[1..]);
      }
    }
  }

  /** From the start state, the whole session writes only well-formed files. */
  lemma SessionFilesWellFormed(sampleLength: nat, initialGain: int, ds: seq<DwellInput>)
    requires DeliversAll(ds, 2 * sampleLength)
    ensures FilesWellFormed(Run(Start(sampleLength, initialGain), ds).state.files)
  {
    RunFilesWellFormed(Start(sampleLength, initialGain), ds);
  }

  /**
   * The do-while body runs at least once and its first pass cannot abort,
   * since nothing is saturated on entry: a session writes at least one file,
   * and the first file records the configured gain.
   */
  lemma SessionWritesFirstFile(sampleLength: nat, initialGain: int, ds: seq<DwellInput>)
    requires |ds| >= 1 && DeliversAll(ds, 2 * sampleLength)
    ensures var files := Run(Start(sampleLength, initialGain), ds).state.files;
      |files| >= 1 && files[0].header.rxGain == initialGain
  {
    var s := Start(sampleLength, initialGain);
    RunUnroll(s, ds);
    var n1 := Step(s, ds[0]);
    RunOneFilePerDwell(n1.state, ds[1..]);
    assert Run(s, ds).state.files[..1] == n1.state.files;
  }
}
