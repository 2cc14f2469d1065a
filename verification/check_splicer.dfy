/** The library's shared test table: the eight bytes `0 .. 7` split into one
    to six channels, checked against every splicer. */
module CheckSplicer {
  import opened Channels
  import opened Splicing

  const Input: seq<byte> := [0, 1, 2, 3, 4, 5, 6, 7]

  /** `Expected[channels]` is the split of `Input`; entry 0 is unused. */
  const Expected: seq<seq<seq<byte>>> := [
    [],
    [[0, 1, 2, 3, 4, 5, 6, 7]],
    [[0, 2, 4, 6], [1, 3, 5, 7]],
    [[0, 3, 6], [1, 4, 7], [2, 5]],
    [[0, 4], [1, 5], [2, 6], [3, 7]],
    [[0, 5], [1, 6], [2, 7], [3], [4]],
    [[0, 6], [1, 7], [2], [3], [4], [5]]
  ]

  /** Channel `k` of `Input` under `c` channels, element by element. */
  lemma InputChannel(c: nat, k: nat, expected: seq<byte>)
    requires c > 0 && |expected| == ChannelLen(|Input|, c, k)
    requires forall j :: 0 <= j < |expected| ==> expected[j] as int == k + j * c
    ensures Channel(Input, c, k) == expected
  {
    forall j | 0 <= j < |expected|
      ensures Channel(Input, c, k)[j] == expected[j]
    {
      ChannelAt(Input, c, k, j);
    }
  }

  /** The reference split agrees with every row of the table. */
  lemma TableHolds(channels: nat)
    requires 1 <= channels < |Expected|
    ensures Deinterleave(Input, channels) == Expected[channels]
  {
    var c := channels;
    var row := Expected[c];
    forall k | 0 <= k < c
      ensures Channel(Input, c, k) == row[k]
    {
      InputChannel(c, k, row[k]);
    }
  }

  /** `test_splice`: the direct splicer reproduces the table. */
  method CheckSplice(channels: nat) returns (out: seq<seq<byte>>)
    requires 1 <= channels < |Expected|
    ensures out == Expected[channels]
  {
    out := Splice(channels, Input);
    TableHolds(channels);
  }

  /** `test_splice_stepped`: the strided splicer reproduces the table. */
  lemma CheckSpliceStepped(channels: nat)
    requires 1 <= channels < |Expected|
    ensures SpliceStepped(channels, Input) == Expected[channels]
  {
    TableHolds(channels);
  }

  /** `test_splice_parallel`: the parallel splicer reproduces the table
      under every schedule. */
  lemma CheckSpliceParallel(channels: nat, schedule: nat -> Plan)
    requires 1 <= channels < |Expected|
    ensures SpliceParallel(channels, Input, schedule) == Expected[channels]
  {
    TableHolds(channels);
  }
}
