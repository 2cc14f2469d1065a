# slicing-perf: a verified model of byte-slice de-interleaving

The library splits a byte slice into `channels` output vectors. Output
channel `k` receives every element whose index is congruent to `k` modulo
`channels`, in ascending index order. The library offers three
implementations of this, all with the same result:

- `splice` pre-sizes `channels` vectors. It walks the input once and pushes
  element `i` onto vector `i % channels`.
- `splice_stepped` builds each channel `k` as
  `data.iter().skip(k).step_by(channels)`.
- `splice_parallel` runs the same `skip`/`step_by` pipeline on a rayon
  parallel iterator over the data.

The model has four modules:

- `Channels` (`channels.dfy`) holds the reference meaning.
  - `Channel(data, c, k)` is the sequence `data[k], data[k+c], data[k+2c], ...`.
  - `ChannelLen` is its length.
  - `Deinterleave` is the family of all `c` channels.
  - `Interleave` is the inverse operation.
  - It also holds the length, coverage and round-trip lemmas.
- `Iterators` (`iterators.dfy`) models Rust's `skip`, prefix slicing and
  `step_by` on finite sequences. It proves that `skip(k).step_by(c)` is
  channel `k`, both over the whole input and over any window that a parallel
  producer walks.
- `Splicing` (`splicing.dfy`) holds the three splicers and the pre-sizing
  arithmetic. `Splice` is an imperative method with a loop invariant.
  `SpliceStepped` and `SpliceParallel` are functions. Each one is proved
  equal to `Deinterleave`.
- `CheckSplicer` (`check_splicer.dfy`) is the library's test table. It states
  the table for each splicer.

Elements are `Channels.byte`, a newtype for the values `0 .. 255` (Rust
`u8`). Lengths and channel counts are unbounded naturals. The one place where
the width of `usize` matters is the `each_len` computation, and
`EachLenNoOverflow` covers it for a 64-bit target.

Two facts about the code shape the model:

- A channel count of 0 fails `assert!(channels > 0)` in every splicer, which
  panics. The model states it as the precondition `channels > 0` on every
  splicer.
- In `splice_parallel` the outer `(0..channels).map(..)` is a plain
  sequential iterator. The parallelism is *inside* each channel:
  `data.par_iter().skip(offset).step_by(channels).collect()`.
  - The model captures this with `Plan`. A plan is a fork/join split tree over
    one channel's index range. Like rayon's bridge, a split cuts the range at
    its midpoint, and a range shorter than two positions is never split.
  - The root range is the length the parallel iterator reports: the ceiling
    of what `skip(offset)` leaves, divided by `channels`.
  - `ParCollect` collects under any plan. Each unsplit piece walks its own
    window of the input with `step_by`, and the joined results stay in order.
  - The plan is left free, so the results hold for every schedule.

## Model

| member | source | states |
|---|---|---|
| Channels.ChannelAt | src/lib.rs:19-23 | position `j` of channel `k` exists only when input index `k + j*c` exists, and it holds `data[k + j*c]` |
| Channels.ChannelLenBound | src/lib.rs:21-22 | channel `k` has a position `j` exactly when `k + j*c < N`, for every `j` (both directions) |
| Channels.ChannelLenCeil | src/lib.rs:21-22 | channel `k`'s length is `(N - k + C - 1) / C` when `k < N`, and 0 otherwise |
| Channels.ChannelLenSucc | src/lib.rs:8-10 | one more input element lengthens channel `N % C` by one and leaves every other channel's length unchanged |
| Channels.ChannelLenMax | src/lib.rs:6 | no channel is longer than channel 0 |
| Channels.ChannelSnoc | src/lib.rs:8-10 | pushing element `N` appends it to channel `N % C` and leaves every other channel's contents unchanged |
| Channels.DeinterleaveSnoc | src/lib.rs:8-10 | the split of `s + [x]` is the split of `s` with `x` pushed onto vector `|s| % C` only |
| Channels.InterleaveDeinterleave | src/lib.rs:8-10 | coverage and order: reading index `i` back from channel `i % C` at position `i / C` rebuilds the input exactly |
| Channels.DeinterleaveInjective | src/lib.rs:8-10 | the split loses nothing: two inputs of equal length with the same channels are equal |
| Channels.DeinterleaveInterleave | src/lib.rs:4-12 | the other round trip: every correctly shaped family of `C` channels is the split of its own interleaving, so every such family is reachable |
| Channels.DeinterleaveShaped | src/lib.rs:7 | the split has exactly `C` vectors, and vector `k` has length `ChannelLen(N, C, k)` |
| Channels.SumLensGrow | src/lib.rs:9 | a push onto one vector raises the total length of all vectors by one |
| Channels.SumLensDeinterleave | src/lib.rs:8-10 | the channel lengths add up to `N`: each element is routed exactly once |
| Channels.DeinterleaveEmpty | src/lib.rs:7-8 | an empty input gives `C` empty vectors |
| Channels.DeinterleaveOne | src/lib.rs:47 | with `C = 1` the single channel is the input unchanged |
| Channels.DeinterleaveWide | src/lib.rs:7-10 | when `C > N`, channel `k < N` is `[data[k]]` and every later channel is empty |
| Iterators.TakeThenSkip | src/lib.rs:21 | `skip(n)` yields what remains after the first `n` elements: the first `n` (or all, when fewer) followed by the skipped-to rest is the input, and the rest has `N - n` elements, or none when `n > N` |
| Iterators.StepByEveryStep | src/lib.rs:22 | `step_by(C)` (first element, then every `C`-th) yields `s[0], s[C], s[2C], ...`, the ceiling of `|s| / C` elements in all |
| Iterators.StepBySkipIsChannel | src/lib.rs:19-23 | `data.iter().skip(k).step_by(C)` yields exactly channel `k`, for every `k`, including `k >= N` |
| Iterators.StepByWindow | src/lib.rs:33-37 | stepping through the input window `[k + lo*C, k + hi*C)` yields channel `k`'s positions `lo .. hi` |
| Splicing.EachLenIsCeiling | src/lib.rs:6 | `each_len` is the ceiling of `N / C` (`each_len * C >= N > (each_len - 1) * C`), equals channel 0's length, and bounds every channel |
| Splicing.EachLenNoOverflow | src/lib.rs:6 | with `N` and `C` in 64-bit `usize`, neither `N / C` nor the added one exceeds `usize::MAX` |
| Splicing.Splice | src/lib.rs:4-12 | the one-pass splicer returns the `C` channels of the input and the same vectors as `splice_stepped`, and no vector outgrows `each_len` |
| Splicing.SpliceStepped | src/lib.rs:15-26 | the per-channel `skip`/`step_by` splicer returns the `C` channels of the input |
| Splicing.ParCollect | src/lib.rs:33-37 | collecting channel `k`'s positions `lo .. hi` under any fork/join `Plan` (midpoint splits, never below two positions, in-order joins) gives exactly those positions, in order |
| Splicing.WalkWindow | src/lib.rs:33-37 | one unsplit piece of the parallel iterator, `step_by` over its input window, yields exactly channel `k`'s positions `lo .. hi` |
| Splicing.CollectChannel | src/lib.rs:33-37 | one channel's parallel collect, over the root range of the ceiling length the iterator reports, is channel `offset` under every plan |
| Splicing.SpliceParallel | src/lib.rs:29-40 | the parallel splicer returns the `C` channels of the input for every schedule |
| Splicing.SpliceParallelMatchesStepped | src/lib.rs:31-38 | `splice_parallel` and `splice_stepped` return identical vectors |
| Splicing.SpliceParallelDeterministic | src/lib.rs:33-37 | two different schedules of the parallel splicer give identical output |
| CheckSplicer.TableHolds | src/lib.rs:44-53 | the reference split of `[0..=7]` into 1 to 6 channels is the test table's expected row |
| CheckSplicer.CheckSplice | src/lib.rs:59-62 | `splice` reproduces every row of the test table |
| CheckSplicer.CheckSpliceStepped | src/lib.rs:64-67 | `splice_stepped` reproduces every row of the test table |
| CheckSplicer.CheckSpliceParallel | src/lib.rs:69-71 | `splice_parallel` reproduces every row of the test table under every schedule |

## Left out

- The `channels == 0` panic (`assert!` at src/lib.rs:5, 16, 30) is a precondition, not a modelled outcome. The code aborts rather than returning an error, so there is no result to describe.
- Vector capacity and allocation (`Vec::with_capacity`, allocation failure) are runtime effects with no bearing on the result. Only the value of `each_len` and the fact that no channel outgrows it are stated. Rust's `vec![elem; n]` fills the first `n - 1` slots with clones, and a cloned empty `Vec` has capacity 0. So only the last of the `channels` vectors actually keeps the `each_len` reservation. This affects speed only, and the model does not track capacity.
- Rayon's scheduling is reduced to a free choice of split plan per channel. Work stealing, thread pools, the adaptive splitter and `min_len` are not modelled, and neither is task failure. The collect's order-preserving join is modelled as sequence concatenation.
- `usize` arithmetic is unbounded in the model except in `EachLenNoOverflow`. `i % channels` and the index arithmetic of `skip`/`step_by` cannot overflow for in-range indices.
- `#[inline]` hints, performance, and the benchmark harness (`benches/splicing_benchmarks.rs`) are measurement tooling and are not modelled.
