/**
 * The capture loop of `main` on its own mutable state: the locals the loop
 * updates (`rxGain`, `saturated`, `overrunCounter`, the header fields of
 * `packet`) and the `iq` buffer the device streams into, which the loop
 * clears and refills in place. Each method is proved against the value-level
 * `Step` and `Run` of module CaptureLoop, so every lemma about those carries
 * over to this class.
 */
module Recording {

  import opened Saturation
  import opened FileNames
  import opened CaptureLoop

  class Session {
    /** The requested samples per dwell (line 186); the buffer holds an I and a Q value for each. */
    const sampleLength: nat
    var rxGain: int
    var saturated: bool
    var overrunCounter: U32
    var header: Header
    /** The host buffer `iq_vec` (lines 257-259). */
    const iq: array<I16>
    /** The files written so far, in order. */
    var files: seq<CaptureFile>

    ghost predicate Valid()
      reads this
    {
      iq.Length == 2 * sampleLength
    }

    /** The session as a value of the loop's state machine. */
    ghost function Abstract(): State
      reads this, iq
    {
      State(rxGain, saturated, overrunCounter, header, iq[..], files)
    }

    /**
     * The state on entry to the loop: the configured gain, no saturation, no
     * overruns, `numSamples` preset to `sampleLength` (line 253) and a zeroed
     * buffer of `2*sampleLength` values (line 258).
     */
    constructor (sampleLength: nat, initialGain: int)
      ensures Valid() && fresh(iq)
      ensures Abstract() == Start(sampleLength, initialGain)
    {
      this.sampleLength := sampleLength;
      rxGain := initialGain;
      saturated := false;
      overrunCounter := 0;
      header := Header(0, sampleLength);
      iq := new I16[2 * sampleLength](_ => 0);
      files := [];
      new;
      assert iq[..] == Zeros(2 * sampleLength);
    }

    /** `memset(iq, 0, ...)` at line 286: every value of the buffer becomes 0. */
    method Clear()
      modifies iq
      ensures iq[..] == Zeros(iq.Length)
    {
      for i := 0 to iq.Length
        invariant forall k | 0 <= k < i :: iq[k] == 0
      {
        iq[i] := 0;
      }
    }

    /** The device writes `written` over the front of the buffer and leaves the rest. */
    method Receive(written: seq<I16>)
      requires |written| <= iq.Length
      modifies iq
      ensures iq[..] == written + old(iq[..])[|written|..]
    {
      for i := 0 to |written|
        invariant forall k | 0 <= k < i :: iq[k] == written[k]
        invariant forall k | i <= k < iq.Length :: iq[k] == old(iq[k])
      {
        iq[i] := written[i];
      }
    }

    /**
     * One pass of the do-while body (lines 265-324); `aborted` is true when
     * `main` returns 1 because lowering the gain failed.
     */
    method Dwell(d: DwellInput) returns (aborted: bool)
      requires Valid() && Delivers(d.rx, iq.Length)
      modifies this, iq
      ensures Valid()
      ensures Next(Abstract(), aborted) == Step(old(Abstract()), d)
    {
      if saturated {
        rxGain := rxGain - 1;
        if !d.gainSetOk {
          return true;
        }
      }
      header := header.(rxGain := rxGain);
      saturated := false;
      Clear();
      var actualCount := 0;
      match d.rx {
        case RxError =>
        case RxOverrun(count, written) =>
          Receive(written);
          actualCount := count;
          overrunCounter := (overrunCounter + 1) % 0x1_0000_0000;
        case RxOk(count, written) =>
          Receive(written);
          actualCount := count;
          saturated := CheckSaturation(iq);
      }
      assert iq[..] == Received(iq.Length, d.rx);
      header := header.(numSamples := actualCount);
      files := files + [CaptureFile(d.stamp, header, iq[..2 * actualCount])];
      aborted := false;
    }

    /**
     * The loop from its first iteration to its end, then `main`'s exit
     * status: 1 when a gain-set failed, otherwise the status of disabling
     * the receiver (line 342). One input per iteration; the loop runs while
     * inputs remain, as it runs while the collection duration has not elapsed.
     */
    method Capture(ds: seq<DwellInput>, disableStatus: int) returns (status: int)
      requires Valid() && |ds| >= 1 && DeliversAll(ds, iq.Length)
      modifies this, iq
      ensures Valid()
      ensures var n := Run(old(Abstract()), ds);
        Abstract() == n.state && status == (if n.aborted then 1 else disableStatus)
    {
      var i := 0;
      while i < |ds|
        invariant 0 <= i <= |ds| && Valid()
        invariant DeliversAll(ds[i..], iq.Length)
        invariant Run(old(Abstract()), ds) == Run(Abstract(), ds[i..])
        decreases |ds| - i
      {
        ghost var before := Abstract();
        RunUnroll(before, ds[i..]);
        assert ds[i..][1..] == ds[i + 1..];
        var aborted := Dwell(ds[i]);
        if aborted {
          return 1;
        }
        i := i + 1;
      }
      status := disableStatus;
    }
  }
}
