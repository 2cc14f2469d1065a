/** The three splicers of the library: `splice` (one pass, direct index
    routing), `splice_stepped` (one strided scan per channel) and
    `splice_parallel` (the same strided scan, each channel collected by a
    fork/join parallel iterator). Each is proved to compute `Deinterleave`. */
module Splicing {
  import opened Channels
  import opened Iterators

  /** `usize::MAX` on a 64-bit target. */
  const USIZE_MAX: nat := 0xFFFF_FFFF_FFFF_FFFF

  /* ---------- Pre-sizing ---------- */

  /** The capacity `splice` reserves for every channel:
      `len / channels`, plus one when the division leaves a remainder. */
  function EachLen(n: nat, channels: nat): nat
    requires channels > 0
  {
    n / channels + if n % channels == 0 then 0 else 1
  }

  /** `EachLen` is the ceiling of `n / channels`, which is the length of
      channel 0, and no channel is longer. */
  lemma EachLenIsCeiling(n: nat, channels: nat)
    requires channels > 0
    ensures EachLen(n, channels) * channels >= n
    ensures EachLen(n, channels) > 0 ==> (EachLen(n, channels) - 1) * channels < n
    ensures EachLen(n, channels) == ChannelLen(n, channels, 0)
    ensures forall k :: 0 <= k < channels ==> ChannelLen(n, channels, k) <= EachLen(n, channels)
  {
    var c, e := channels, EachLen(n, channels);
    EachLenIsChannelZero(n, c);
    ChannelLenBound(n, c, 0, e);
    if e > 0 {
      ChannelLenBound(n, c, 0, e - 1);
    }
    forall k | 0 <= k < c
      ensures ChannelLen(n, c, k) <= e
    {
      ChannelLenMax(n, c, k);
    }
  }

  lemma EachLenIsChannelZero(n: nat, c: nat)
    requires c > 0
    ensures EachLen(n, c) == ChannelLen(n, c, 0)
  {
    if n > 0 {
      var q, r := (n - 1) / c, (n - 1) % c;
      DivModParts(n - 1, c);
      if r + 1 < c {
        assert n == c * q + (r + 1);
        DivModUnique(n, c, q, r + 1);
      } else {
        assert n == c * (q + 1) + 0;
        DivModUnique(n, c, q + 1, 0);
      }
      assert ChannelLen(n, c, 0) == q + 1;
    }
  }

  /** On a 64-bit target neither the quotient nor the added one can wrap:
      the computation of `each_len` never overflows `usize`. */
  lemma EachLenNoOverflow(n: nat, channels: nat)
    requires 0 < channels <= USIZE_MAX && n <= USIZE_MAX
    ensures n / channels <= USIZE_MAX
    ensures EachLen(n, channels) <= USIZE_MAX
  {
    var q := n / channels;
    if channels == 1 {
      DivModUnique(n, 1, n, 0);
    } else {
      QuotientAtMostHalf(n, channels);
      assert EachLen(n, channels) <= q + 1;
    }
  }

  /** Dividing by at least two at least halves. */
  lemma QuotientAtMostHalf(n: nat, c: nat)
    requires c >= 2
    ensures 2 * (n / c) <= n
  {
    var q := n / c;
    LeDiv(q, n, c);
    assert q * 2 <= q * c;
  }

  /* ---------- splice: one pass, direct routing ---------- */

  /** Walks the input once and pushes element `i` onto channel `i % channels`. */
  method Splice(channels: nat, data: seq<byte>) returns (out: seq<seq<byte>>)
    requires channels > 0
    ensures out == Deinterleave(data, channels)
    ensures out == SpliceStepped(channels, data)
    ensures forall k :: 0 <= k < |out| ==> |out[k]| <= EachLen(|data|, channels)
  {
    out := seq(channels, _ => []);
    DeinterleaveEmpty(channels);
    assert data[..0] == [];
    var i := 0;
    while i < |data|
      invariant i <= |data|
      invariant out == Deinterleave(data[..i], channels)
    {
      DeinterleaveSnoc(data[..i], data[i], channels);
      assert data[..i + 1] == data[..i] + [data[i]];
      out := out[i % channels := out[i % channels] + [data[i]]];
      i := i + 1;
    }
    assert data[..i] == data;
    EachLenIsCeiling(|data|, channels);
  }

  /* ---------- splice_stepped: one strided scan per channel ---------- */

  /** Channel `offset` is `data.iter().skip(offset).step_by(channels)`. */
  function SpliceStepped(channels: nat, data: seq<byte>): (r: seq<seq<byte>>)
    requires channels > 0
    ensures r == Deinterleave(data, channels)
  {
    StridedScansAreChannels(data, channels);
    seq(channels, offset requires 0 <= offset < channels => StepBy(Skip(data, offset), channels))
  }

  lemma StridedScansAreChannels(data: seq<byte>, channels: nat)
    requires channels > 0
    ensures forall offset :: 0 <= offset < channels ==>
      StepBy(Skip(data, offset), channels) == Channel(data, channels, offset)
  {
    forall offset | 0 <= offset < channels {
      StepBySkipIsChannel(data, channels, offset);
    }
  }

  /* ---------- splice_parallel: the strided scan on a parallel iterator ---------- */

  /** How the parallel iterator divides a channel's index range: kept whole
      and walked sequentially, or split at its midpoint into two halves
      that may run on different workers. Which plan runs is up to the
      scheduler, so the model leaves it free. */
  datatype Plan = Sequential | Split(left: Plan, right: Plan)

  /** Positions `lo .. hi` of channel `k`, collected under `plan`: a range
      of fewer than two positions is never split, a split range is
      collected as two halves whose results are joined in order, and an
      unsplit range walks its window of `data` with `step_by`. */
  function ParCollect(data: seq<byte>, c: nat, k: nat, lo: nat, hi: nat, plan: Plan): (r: seq<byte>)
    requires c > 0 && lo <= hi <= ChannelLen(|data|, c, k)
    ensures r == Channel(data, c, k)[lo..hi]
    decreases plan
  {
    if plan.Split? && hi - lo >= 2 then
      var mid := lo + (hi - lo) / 2;
      var whole := Channel(data, c, k);
      assert whole[lo..hi] == whole[lo..mid] + whole[mid..hi];
      ParCollect(data, c, k, lo, mid, plan.left) + ParCollect(data, c, k, mid, hi, plan.right)
    else
      WalkWindow(data, c, k, lo, hi)
  }

  /** One unsplit piece: `step_by` over the input window that holds
      positions `lo .. hi` of channel `k`. */
  function WalkWindow(data: seq<byte>, c: nat, k: nat, lo: nat, hi: nat): (r: seq<byte>)
    requires c > 0 && lo <= hi <= ChannelLen(|data|, c, k)
    ensures r == Channel(data, c, k)[lo..hi]
  {
    StepByWindow(data, c, k, lo, hi);
    StepBy(Window(data, c, k, lo, hi), c)
  }

  /** `data.par_iter().skip(offset).step_by(c).collect()` under `plan`. The
      root range is the length the parallel iterator reports: the ceiling
      of what `skip(offset)` leaves, divided by `c`. */
  function CollectChannel(data: seq<byte>, c: nat, offset: nat, plan: Plan): (r: seq<byte>)
    requires c > 0
    ensures r == Channel(data, c, offset)
  {
    var len := StepByLen(|Skip(data, offset)|, c);
    SkippedLen(data, c, offset);
    var whole := Channel(data, c, offset);
    assert whole[0..len] == whole;
    ParCollect(data, c, offset, 0, len, plan)
  }

  /** Channel `offset` is collected by the parallel iterator under the plan
      `schedule(offset)`; the offsets themselves run in order. */
  function SpliceParallel(channels: nat, data: seq<byte>, schedule: nat -> Plan): (r: seq<seq<byte>>)
    requires channels > 0
    ensures r == Deinterleave(data, channels)
  {
    assert forall offset :: 0 <= offset < channels ==>
      CollectChannel(data, channels, offset, schedule(offset)) == Channel(data, channels, offset);
    seq(channels, offset requires 0 <= offset < channels =>
      CollectChannel(data, channels, offset, schedule(offset)))
  }

  /** The parallel splicer returns what the sequential strided one returns. */
  lemma SpliceParallelMatchesStepped(channels: nat, data: seq<byte>, schedule: nat -> Plan)
    requires channels > 0
    ensures SpliceParallel(channels, data, schedule) == SpliceStepped(channels, data)
  {
  }

  /** Scheduling cannot change the result: any two plans agree. */
  lemma SpliceParallelDeterministic(channels: nat, data: seq<byte>, s1: nat -> Plan, s2: nat -> Plan)
    requires channels > 0
    ensures SpliceParallel(channels, data, s1) == SpliceParallel(channels, data, s2)
  {
  }
}
