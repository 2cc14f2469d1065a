/** The mathematical meaning of de-interleaving: channel `k` of `data` split
    into `c` channels holds `data[k], data[k + c], data[k + 2c], ...` in
    ascending index order. Everything the three splicers compute is measured
    against the definitions of this module. */
module Channels {

  /** The element type of the splicers (Rust `u8`). */
  newtype byte = x: int | 0 <= x < 256

  /* ---------- Euclidean division facts (all operands are non-negative) ---------- */

  /** `a / c` and `a % c` are the only quotient and remainder of `a`. */
  lemma DivModUnique(a: int, c: int, q: int, r: int)
    requires c > 0 && 0 <= r < c && a == c * q + r
    ensures a / c == q && a % c == r
  {
    var q0, r0 := a / c, a % c;
    assert c * (q0 - q) == r - r0;
    if q0 > q {
      MulAtLeast(c, q0 - q);
    } else if q0 < q {
      MulAtLeast(c, q - q0);
    }
  }

  lemma MulAtLeast(c: int, x: int)
    requires c > 0 && x >= 1
    ensures c * x >= c
  {
  }

  /** For non-negative `a`: `j <= a / c` exactly when `j * c <= a`. */
  lemma LeDiv(j: nat, a: nat, c: nat)
    requires c > 0
    ensures j <= a / c <==> j * c <= a
  {
    var q := a / c;
    assert a == c * q + a % c;
    if j <= q {
      assert j * c <= q * c;
    } else {
      MulAtLeast(c, j - q);
      assert j * c == q * c + c * (j - q);
    }
  }

  /** Multiplying by a positive `c` keeps strict order, both ways. */
  lemma MulLtIff(i: nat, j: nat, c: nat)
    requires c > 0
    ensures i * c < j * c <==> i < j
  {
    if i < j {
      MulAtLeast(c, j - i);
      assert j * c == i * c + c * (j - i);
    } else {
      assert i * c == j * c + c * (i - j);
    }
  }

  /* ---------- Channel lengths ---------- */

  /** How many indices below `n` are `k` plus a multiple of `c`. */
  function ChannelLen(n: nat, c: nat, k: nat): nat
    requires c > 0
  {
    if k < n then (n - k - 1) / c + 1 else 0
  }

  /** The defining property of a channel's length: position `j` exists in
      channel `k` exactly when input index `k + j * c` exists. */
  lemma ChannelLenBound(n: nat, c: nat, k: nat, j: nat)
    requires c > 0
    ensures j < ChannelLen(n, c, k) <==> k + j * c < n
  {
    if k < n {
      LeDiv(j, n - k - 1, c);
    } else {
      assert j * c >= 0;
    }
  }

  /** The length in the form Rust's `step_by` computes it after `skip(k)`:
      the ceiling of `(n - k) / c`. */
  lemma ChannelLenCeil(n: nat, c: nat, k: nat)
    requires c > 0
    ensures ChannelLen(n, c, k) == if k < n then (n - k + c - 1) / c else 0
  {
    if k < n {
      var a := n - k - 1;
      DivModUnique(a + c, c, a / c + 1, a % c);
    }
  }

  /** Appending one input element lengthens exactly the channel it is routed to. */
  lemma ChannelLenSucc(n: nat, c: nat, k: nat)
    requires 0 <= k < c
    ensures ChannelLen(n + 1, c, k) == ChannelLen(n, c, k) + if n % c == k then 1 else 0
  {
    if n % c == k {
      DivModParts(n, c);
      ChannelLenExact(n, c, k, n / c);
    } else {
      ChannelLenMiss(n, c, k);
    }
  }

  /** When `n` is `k` plus `q` strides, channel `k` has `q` positions below
      `n` and gains the position `q` at `n`. */
  lemma ChannelLenExact(n: nat, c: nat, k: nat, q: nat)
    requires c > 0 && k + q * c == n
    ensures ChannelLen(n, c, k) == q && ChannelLen(n + 1, c, k) == q + 1
  {
    DivModUnique(n - k, c, q, 0);
    if q > 0 {
      DivModUnique(n - k - 1, c, q - 1, c - 1);
    }
  }

  /** An index routed elsewhere leaves channel `k`'s length unchanged. */
  lemma ChannelLenMiss(n: nat, c: nat, k: nat)
    requires 0 <= k < c && n % c != k
    ensures ChannelLen(n + 1, c, k) == ChannelLen(n, c, k)
  {
    if k == n {
      DivModUnique(n, c, 0, n);
    } else if k < n {
      var q, r := (n - k - 1) / c, (n - k - 1) % c;
      DivModParts(n - k - 1, c);
      if r + 1 < c {
        DivModUnique(n - k, c, q, r + 1);
      } else {
        DivModUnique(n, c, q + 1, k);
      }
    }
  }

  /** Quotient and remainder put `i` back together. */
  lemma DivModParts(i: nat, c: nat)
    requires c > 0
    ensures 0 <= i % c < c && i == i % c + (i / c) * c
  {
  }

  /** Channel 0 is never shorter than any other channel. */
  lemma ChannelLenMax(n: nat, c: nat, k: nat)
    requires c > 0
    ensures ChannelLen(n, c, k) <= ChannelLen(n, c, 0)
  {
    var m := ChannelLen(n, c, 0);
    ChannelLenBound(n, c, 0, m);
    ChannelLenBound(n, c, k, m);
  }

  /* ---------- Channels ---------- */

  /** Channel `k`: the elements at indices `k, k + c, k + 2c, ...` of `data`. */
  function Channel(data: seq<byte>, c: nat, k: nat): seq<byte>
    requires c > 0
  {
    var len := ChannelLen(|data|, c, k);
    seq(len, j requires 0 <= j < len =>
      ChannelLenBound(|data|, c, k, j); data[k + j * c])
  }

  /** Position `j` of channel `k` is input index `k + j * c`. */
  lemma ChannelAt(data: seq<byte>, c: nat, k: nat, j: nat)
    requires c > 0 && j < |Channel(data, c, k)|
    ensures k + j * c < |data| && Channel(data, c, k)[j] == data[k + j * c]
  {
    ChannelLenBound(|data|, c, k, j);
  }

  /** Channel `k` with its first `lo` elements dropped is the channel that
      starts `lo` strides later. */
  lemma ChannelShift(data: seq<byte>, c: nat, k: nat, lo: nat)
    requires c > 0 && lo <= ChannelLen(|data|, c, k)
    ensures Channel(data, c, k + lo * c) == Channel(data, c, k)[lo..]
  {
    var n := |data|;
    var shifted, whole := Channel(data, c, k + lo * c), Channel(data, c, k);
    var a, b := |shifted|, |whole|;
    ChannelLenBound(n, c, k + lo * c, b - lo);
    ChannelLenBound(n, c, k, b);
    assert (k + lo * c) + (b - lo) * c == k + b * c;
    ChannelLenBound(n, c, k + lo * c, a);
    ChannelLenBound(n, c, k, lo + a);
    assert (k + lo * c) + a * c == k + (lo + a) * c;
    assert a == b - lo;
    forall j | 0 <= j < a
      ensures shifted[j] == whole[lo + j]
    {
      ChannelAt(data, c, k + lo * c, j);
      ChannelAt(data, c, k, lo + j);
      assert (k + lo * c) + j * c == k + (lo + j) * c;
    }
  }

  /** A non-empty channel is its first element followed by the channel one
      stride further on. */
  lemma ChannelTail(data: seq<byte>, c: nat, k: nat)
    requires c > 0 && k < |data|
    ensures Channel(data, c, k) == [data[k]] + Channel(data, c, k + c)
  {
    ChannelLenBound(|data|, c, k, 0);
    ChannelShift(data, c, k, 1);
    ChannelAt(data, c, k, 0);
  }

  /** The channel of a prefix is a prefix of the channel. */
  lemma ChannelPrefix(data: seq<byte>, c: nat, k: nat, m: nat)
    requires c > 0 && m <= |data|
    ensures ChannelLen(m, c, k) <= ChannelLen(|data|, c, k)
    ensures Channel(data[..m], c, k) == Channel(data, c, k)[..ChannelLen(m, c, k)]
  {
    var a, b := ChannelLen(m, c, k), ChannelLen(|data|, c, k);
    ChannelLenBound(|data|, c, k, b);
    ChannelLenBound(m, c, k, b);
    forall j | 0 <= j < a
      ensures Channel(data[..m], c, k)[j] == Channel(data, c, k)[j]
    {
      ChannelAt(data[..m], c, k, j);
      ChannelLenBound(|data|, c, k, j);
      ChannelAt(data, c, k, j);
    }
  }

  /** Appending `x` to the input appends `x` to channel `|s| % c` and to no other. */
  lemma ChannelSnoc(s: seq<byte>, x: byte, c: nat, k: nat)
    requires 0 <= k < c
    ensures Channel(s + [x], c, k) == Channel(s, c, k) + if |s| % c == k then [x] else []
  {
    var t := s + [x];
    ChannelLenSucc(|s|, c, k);
    var a := ChannelLen(|s|, c, k);
    forall j | 0 <= j < |Channel(t, c, k)|
      ensures Channel(t, c, k)[j] == (Channel(s, c, k) + if |s| % c == k then [x] else [])[j]
    {
      ChannelAt(t, c, k, j);
      if j < a {
        ChannelAt(s, c, k, j);
      } else {
        ChannelLenBound(|s|, c, k, j);
        assert k + j * c == |s|;
      }
    }
  }

  /* ---------- Whole splits ---------- */

  /** The `c` channels of `data`, channel 0 first. */
  function Deinterleave(data: seq<byte>, c: nat): (r: seq<seq<byte>>)
    requires c > 0
  {
    seq(c, k requires 0 <= k < c => Channel(data, c, k))
  }

  /** Appending `x` to the input appends it to channel `|s| % c` only. */
  lemma DeinterleaveSnoc(s: seq<byte>, x: byte, c: nat)
    requires c > 0
    ensures var k := |s| % c;
      Deinterleave(s + [x], c) == Deinterleave(s, c)[k := Deinterleave(s, c)[k] + [x]]
  {
    forall k | 0 <= k < c
      ensures Deinterleave(s + [x], c)[k]
           == Deinterleave(s, c)[|s| % c := Deinterleave(s, c)[|s| % c] + [x]][k]
    {
      ChannelSnoc(s, x, c, k);
    }
  }

  /** `chs` has the shape of a split of `n` elements into `c` channels. */
  ghost predicate Shaped(chs: seq<seq<byte>>, c: nat, n: nat)
    requires c > 0
  {
    |chs| == c && forall k :: 0 <= k < c ==> |chs[k]| == ChannelLen(n, c, k)
  }

  /** The inverse operation: input index `i` is read back from channel
      `i % c` at position `i / c`. */
  function Interleave(chs: seq<seq<byte>>, c: nat, n: nat): (r: seq<byte>)
    requires c > 0 && Shaped(chs, c, n)
    ensures |r| == n
  {
    seq(n, i requires 0 <= i < n =>
      ChannelLenBound(n, c, i % c, i / c); chs[i % c][i / c])
  }

  /** Every split of `data` has the shape of a split of `|data|` elements. */
  lemma DeinterleaveShaped(data: seq<byte>, c: nat)
    requires c > 0
    ensures Shaped(Deinterleave(data, c), c, |data|)
  {
  }

  /** Coverage and order: interleaving the channels back gives the input
      exactly, so every element lands in channel `i % c` at position `i / c`. */
  lemma InterleaveDeinterleave(data: seq<byte>, c: nat)
    requires c > 0
    ensures Shaped(Deinterleave(data, c), c, |data|)
    ensures Interleave(Deinterleave(data, c), c, |data|) == data
  {
    var chs := Deinterleave(data, c);
    forall i | 0 <= i < |data|
      ensures Interleave(chs, c, |data|)[i] == data[i]
    {
      var k, j := i % c, i / c;
      DivModParts(i, c);
      ChannelLenBound(|data|, c, k, j);
      ChannelAt(data, c, k, j);
    }
  }

  /** The split loses nothing: two inputs of the same length with the same
      channels are the same input. */
  lemma DeinterleaveInjective(a: seq<byte>, b: seq<byte>, c: nat)
    requires c > 0 && |a| == |b| && Deinterleave(a, c) == Deinterleave(b, c)
    ensures a == b
  {
    InterleaveDeinterleave(a, c);
    InterleaveDeinterleave(b, c);
  }

  /** The other round trip: any correctly shaped family of channels is the
      split of its own interleaving, so every such family is reachable. */
  lemma DeinterleaveInterleave(chs: seq<seq<byte>>, c: nat, n: nat)
    requires c > 0 && Shaped(chs, c, n)
    ensures Deinterleave(Interleave(chs, c, n), c) == chs
  {
    var data := Interleave(chs, c, n);
    forall k | 0 <= k < c
      ensures Channel(data, c, k) == chs[k]
    {
      forall j | 0 <= j < |chs[k]|
        ensures Channel(data, c, k)[j] == chs[k][j]
      {
        ChannelAt(data, c, k, j);
        DivModUnique(k + j * c, c, j, k);
      }
    }
  }

  /** Sum of the lengths of a family of channels. */
  function SumLens(chs: seq<seq<byte>>): nat
  {
    if |chs| == 0 then 0 else SumLens(chs[..|chs| - 1]) + |chs[|chs| - 1]|
  }

  /** Growing one channel by one element grows the total by one. */
  lemma {:induction false} SumLensGrow(chs: seq<seq<byte>>, k: nat, x: byte)
    requires k < |chs|
    ensures SumLens(chs[k := chs[k] + [x]]) == SumLens(chs) + 1
    decreases |chs|
  {
    var last := |chs| - 1;
    var chs' := chs[k := chs[k] + [x]];
    if k == last {
      assert chs'[..last] == chs[..last];
    } else {
      assert chs'[..last] == chs[..last][k := chs[k] + [x]];
      SumLensGrow(chs[..last], k, x);
    }
  }

  /** Size invariant: the channel lengths add up to the input length. */
  lemma {:induction false} SumLensDeinterleave(data: seq<byte>, c: nat)
    requires c > 0
    ensures SumLens(Deinterleave(data, c)) == |data|
    decreases |data|
  {
    if |data| == 0 {
      SumLensEmpty(Deinterleave(data, c));
    } else {
      var s, x := data[..|data| - 1], data[|data| - 1];
      assert data == s + [x];
      DeinterleaveSnoc(s, x, c);
      SumLensDeinterleave(s, c);
      SumLensGrow(Deinterleave(s, c), |s| % c, x);
    }
  }

  lemma {:induction false} SumLensEmpty(chs: seq<seq<byte>>)
    requires forall k :: 0 <= k < |chs| ==> chs[k] == []
    ensures SumLens(chs) == 0
    decreases |chs|
  {
    if |chs| > 0 {
      SumLensEmpty(chs[..|chs| - 1]);
    }
  }

  /* ---------- Degenerate splits ---------- */

  /** An empty input gives `c` empty channels. */
  lemma DeinterleaveEmpty(c: nat)
    requires c > 0
    ensures Deinterleave([], c) == seq(c, _ => [])
  {
    forall k | 0 <= k < c
      ensures Deinterleave([], c)[k] == []
    {
    }
  }

  /** One channel is the whole input, unchanged. */
  lemma DeinterleaveOne(data: seq<byte>)
    ensures Deinterleave(data, 1) == [data]
  {
    var ch := Channel(data, 1, 0);
    ChannelLenBound(|data|, 1, 0, |data|);
    if |data| > 0 {
      ChannelLenBound(|data|, 1, 0, |data| - 1);
    }
    forall j | 0 <= j < |data|
      ensures ch[j] == data[j]
    {
      ChannelAt(data, 1, 0, j);
    }
    assert ch == data;
    assert Deinterleave(data, 1)[0] == ch;
  }

  /** More channels than elements: channel `k < |data|` holds only `data[k]`,
      the rest are empty. */
  lemma DeinterleaveWide(data: seq<byte>, c: nat, k: nat)
    requires |data| < c && k < c
    ensures Deinterleave(data, c)[k] == if k < |data| then [data[k]] else []
  {
    if k < |data| {
      ChannelLenBound(|data|, c, k, 0);
      ChannelLenBound(|data|, c, k, 1);
      ChannelAt(data, c, k, 0);
    }
  }
}
