/** The Rust iterator adaptors the strided splicers are built from, on
    finite sequences: `skip(n)`, slicing to a prefix, and `step_by(step)`. */
module Iterators {
  import opened Channels

  /** `iter.skip(n)`: drops the first `n` elements, or all of them when
      there are fewer than `n`. */
  function Skip<T>(s: seq<T>, n: nat): seq<T>
  {
    if n <= |s| then s[n..] else []
  }

  /** `skip(n)` yields exactly what remains after the first `n` elements:
      those (or all, when fewer) followed by the skipped-to rest rebuild
      the input, and the rest is no longer than the input allows. */
  lemma TakeThenSkip<T>(s: seq<T>, n: nat)
    ensures Take(s, n) + Skip(s, n) == s
    ensures |Skip(s, n)| == if n <= |s| then |s| - n else 0
  {
  }

  /** `&s[..min(m, s.len())]`: the first `m` elements, or all of them. */
  function Take<T>(s: seq<T>, m: nat): seq<T>
  {
    if m <= |s| then s[..m] else s
  }

  /** `iter.step_by(step)`: yields the first element, then after each
      yielded element skips `step - 1` elements before yielding the next. */
  function StepBy<T>(s: seq<T>, step: nat): seq<T>
    requires step > 0
    decreases |s|
  {
    if |s| == 0 then [] else [s[0]] + StepBy(Skip(s[1..], step - 1), step)
  }

  /** The number of elements `step_by(step)` yields from `len` elements:
      the ceiling of `len / step`, as the parallel iterator reports it. */
  function StepByLen(len: nat, step: nat): nat
    requires step > 0
  {
    (len + step - 1) / step
  }

  /** `step_by(step)` yields `s[0], s[step], s[2*step], ...`: the ceiling of
      `|s| / step` elements, element `j` being `s[j * step]`. */
  lemma StepByEveryStep(s: seq<byte>, step: nat)
    requires step > 0
    ensures |StepBy(s, step)| == StepByLen(|s|, step)
    ensures forall j :: 0 <= j < |StepBy(s, step)| ==>
      j * step < |s| && StepBy(s, step)[j] == s[j * step]
  {
    var r, ch := StepBy(s, step), Channel(s, step, 0);
    StepByIsChannelZero(s, step);
    assert r == ch;
    SkippedLen(s, step, 0);
    assert |Skip(s, 0)| == |s|;
    forall j | 0 <= j < |ch|
      ensures j * step < |s| && ch[j] == s[j * step]
    {
      ChannelAt(s, step, 0, j);
    }
  }

  lemma StepByIsChannelZero(s: seq<byte>, step: nat)
    requires step > 0
    ensures StepBy(s, step) == Channel(s, step, 0)
  {
    assert Skip(s, 0) == s;
    StepBySkipIsChannel(s, step, 0);
  }

  /** After `skip(k)`, `step_by(c)` reports channel `k`'s length. */
  lemma SkippedLen(data: seq<byte>, c: nat, k: nat)
    requires c > 0
    ensures StepByLen(|Skip(data, k)|, c) == ChannelLen(|data|, c, k)
  {
    ChannelLenCeil(|data|, c, k);
    if |data| <= k {
      DivModUnique(c - 1, c, 0, c - 1);
    }
  }

  /** `data.iter().skip(k).step_by(c)` is exactly channel `k`. */
  lemma {:induction false} StepBySkipIsChannel(data: seq<byte>, c: nat, k: nat)
    requires c > 0
    ensures StepBy(Skip(data, k), c) == Channel(data, c, k)
    decreases |data| - k
  {
    if k < |data| {
      SkipPastHead(data, k, c);
      StepBySkipIsChannel(data, c, k + c);
      ChannelTail(data, c, k);
    } else {
      ChannelLenBound(|data|, c, k, 0);
    }
  }

  /** Cutting the input just before index `k + hi * c` leaves exactly `hi`
      elements in channel `k`. */
  lemma WindowLen(n: nat, c: nat, k: nat, hi: nat)
    requires c > 0 && hi <= ChannelLen(n, c, k)
    ensures ChannelLen(if k + hi * c <= n then k + hi * c else n, c, k) == hi
  {
    var m := if k + hi * c <= n then k + hi * c else n;
    ChannelLenBound(m, c, k, hi);
    if hi > 0 {
      ChannelLenBound(n, c, k, hi - 1);
      MulLtIff(hi - 1, hi, c);
      ChannelLenBound(m, c, k, hi - 1);
    }
  }

  /** After yielding the element at `k`, skipping `step - 1` more lands on
      index `k + step`. */
  lemma SkipPastHead<T>(s: seq<T>, k: nat, step: nat)
    requires k < |s| && step > 0
    ensures Skip(s, k)[0] == s[k]
    ensures Skip(Skip(s, k)[1..], step - 1) == Skip(s, k + step)
  {
    assert Skip(s, k)[1..] == s[k + 1..];
  }

  /** `&data[k + lo*c .. min(k + hi*c, N)]`: the part of the input that
      holds positions `lo .. hi` of channel `k`. */
  function Window(data: seq<byte>, c: nat, k: nat, lo: nat, hi: nat): seq<byte>
  {
    Skip(Take(data, k + hi * c), k + lo * c)
  }

  /** A strided walk over the window `[k + lo*c, k + hi*c)` of `data`, as a
      sub-range of a parallel producer performs it, yields positions
      `lo .. hi` of channel `k`. */
  lemma StepByWindow(data: seq<byte>, c: nat, k: nat, lo: nat, hi: nat)
    requires c > 0 && lo <= hi <= ChannelLen(|data|, c, k)
    ensures StepBy(Window(data, c, k, lo, hi), c) == Channel(data, c, k)[lo..hi]
  {
    var prefix := Take(data, k + hi * c);
    var whole := Channel(data, c, k);
    var start := k + lo * c;
    TakeKeepsChannelPrefix(data, c, k, hi);
    ChannelShift(prefix, c, k, lo);
    assert Channel(prefix, c, start) == whole[..hi][lo..];
    StepBySkipIsChannel(prefix, c, start);
    assert Window(data, c, k, lo, hi) == Skip(prefix, start);
    assert whole[..hi][lo..] == whole[lo..hi];
  }

  /** Cutting the input before index `k + hi*c` keeps exactly the first
      `hi` positions of channel `k`. */
  lemma TakeKeepsChannelPrefix(data: seq<byte>, c: nat, k: nat, hi: nat)
    requires c > 0 && hi <= ChannelLen(|data|, c, k)
    ensures ChannelLen(|Take(data, k + hi * c)|, c, k) == hi
    ensures Channel(Take(data, k + hi * c), c, k) == Channel(data, c, k)[..hi]
  {
    var n := |data|;
    var m := if k + hi * c <= n then k + hi * c else n;
    assert Take(data, k + hi * c) == data[..m];
    WindowLen(n, c, k, hi);
    ChannelPrefix(data, c, k, m);
  }
}
