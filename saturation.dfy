/**
 * The saturation check of the capture loop: after a clean receive, the whole
 * interleaved I/Q buffer is scanned with `std::minmax_element` and the dwell
 * counts as saturated when the smallest sample is at or below `SAMP_MIN` or the
 * largest at or above `SAMP_MAX`. The parallel execution policy does not
 * change the result; the scan is modelled sequentially.
 */
module Saturation {

  import opened Options

  /** A `std::int16_t` sample. */
  type I16 = x: int | -0x8000 <= x < 0x8000

  /** Lines 52-53: the extremes of the device's 12-bit samples. */
  const SampMax: I16 := 2047
  const SampMin: I16 := -2048

  /** A sample that touches either extreme. */
  predicate Clipped(x: int)
  {
    x <= SampMin || x >= SampMax
  }

  /** Some sample of the buffer touches an extreme. */
  predicate Saturated(s: seq<I16>)
  {
    exists i | 0 <= i < |s| :: Clipped(s[i])
  }

  /** A buffer of `n` zero samples, as `memset` leaves it. */
  function Zeros(n: nat): (z: seq<I16>)
    ensures |z| == n
  {
    seq(n, _ => 0 as I16)
  }

  /** Saturation of a concatenation is saturation of either part. */
  lemma SaturatedAppend(a: seq<I16>, b: seq<I16>)
    ensures Saturated(a + b) <==> Saturated(a) || Saturated(b)
  {
    if Saturated(a + b) {
      var i :| 0 <= i < |a + b| && Clipped((a + b)[i]);
      if i >= |a| {
        assert Clipped(b[i - |a|]);
      }
    }
    if Saturated(a) {
      var j :| 0 <= j < |a| && Clipped(a[j]);
      assert Clipped((a + b)[j]);
    }
    if Saturated(b) {
      var j :| 0 <= j < |b| && Clipped(b[j]);
      assert Clipped((a + b)[|a| + j]);
    }
  }

  /** The zeroed part of the buffer never makes a dwell saturated. */
  lemma ZeroTailNeverSaturates(a: seq<I16>, n: nat)
    ensures Saturated(a + Zeros(n)) <==> Saturated(a)
  {
    SaturatedAppend(a, Zeros(n));
  }

  /**
   * `std::minmax_element` over a non-empty buffer: the position of the first
   * smallest and of the last largest sample.
   */
  method MinMaxElement(a: array<I16>) returns (first: nat, last: nat)
    requires a.Length > 0
    ensures first < a.Length && last < a.Length
    ensures forall k | 0 <= k < a.Length :: a[first] <= a[k] <= a[last]
    ensures forall k | 0 <= k < first :: a[first] < a[k]
    ensures forall k | last < k < a.Length :: a[k] < a[last]
  {
    first, last := 0, 0;
    for i := 1 to a.Length
      invariant first < i && last < i
      invariant forall k | 0 <= k < i :: a[first] <= a[k] <= a[last]
      invariant forall k | 0 <= k < first :: a[first] < a[k]
      invariant forall k | last < k < i :: a[k] < a[last]
    {
      if a[i] < a[first] {
        first := i;
      }
      if a[last] <= a[i] {
        last := i;
      }
    }
  }

  /**
   * Lines 309-311 as written. On an empty buffer both iterators are `end()`
   * and dereferencing them has no defined value: the verdict is `None`.
   */
  method ScanAsWritten(iq: array<I16>) returns (verdict: Option<bool>)
    ensures iq.Length == 0 <==> verdict == None
    ensures iq.Length > 0 ==> verdict == Some(Saturated(iq[..]))
  {
    if iq.Length == 0 {
      return None;
    }
    var minAt, maxAt := MinMaxElement(iq);
    verdict := Some(iq[minAt] <= SampMin || iq[maxAt] >= SampMax);
    if Saturated(iq[..]) {
      var k :| 0 <= k < iq.Length && Clipped(iq[..][k]);
      assert iq[minAt] <= iq[k] <= iq[maxAt];
    }
    if iq[minAt] <= SampMin {
      assert Clipped(iq[..][minAt]);
    } else if iq[maxAt] >= SampMax {
      assert Clipped(iq[..][maxAt]);
    }
  }

  /** The saturation check with the empty buffer treated as not saturated. */
  method CheckSaturation(iq: array<I16>) returns (saturated: bool)
    ensures saturated <==> Saturated(iq[..])
  {
    var verdict := ScanAsWritten(iq);
    saturated := if verdict.Some? then verdict.value else false;
  }
}
