/** Re-synchronisation of a byte stream onto 188-byte packet boundaries
    (ts_alignment_filter, create_ts_alignment_filter and default_decoder in
    core/default_decoder.c). */
module Alignment {
  import opened TsHeader

  const PacketSize := 188
  const SyncByte: uint8 := 0x47
  /** At most this many consecutive sync bytes are looked at per offset. */
  const MaxSyncRun := 4
  /** Capacity given to a new filter by create_ts_alignment_filter. */
  const InitialBufSize := 188 * 1024

  /** The k-th packet counted from offset `off` starts with a sync byte inside `buf`. */
  predicate SyncAt(buf: seq<uint8>, off: nat, k: nat) {
    k * 188 + off < |buf| && buf[k * 188 + off] == SyncByte
  }

  function RunFrom(buf: seq<uint8>, off: nat, k: nat): (n: nat)
    requires k <= MaxSyncRun
    ensures k <= n <= MaxSyncRun
    decreases MaxSyncRun - k
  {
    if k < MaxSyncRun && SyncAt(buf, off, k) then RunFrom(buf, off, k + 1) else k
  }

  /** The number of consecutive packets, at most MaxSyncRun, that start with a
      sync byte when the stream is cut at offset `off`. */
  function SyncRun(buf: seq<uint8>, off: nat): (n: nat)
    ensures n <= MaxSyncRun
  {
    RunFrom(buf, off, 0)
  }

  lemma {:induction false} RunFromCounts(buf: seq<uint8>, off: nat, k: nat)
    requires k <= MaxSyncRun
    ensures forall i :: k <= i < RunFrom(buf, off, k) ==> SyncAt(buf, off, i)
    ensures RunFrom(buf, off, k) < MaxSyncRun ==> !SyncAt(buf, off, RunFrom(buf, off, k))
    decreases MaxSyncRun - k
  {
    if k < MaxSyncRun && SyncAt(buf, off, k) {
      RunFromCounts(buf, off, k + 1);
    }
  }

  /** The run at `off` counts exactly the leading packets that start with a
      sync byte: each of the first SyncRun of them does, and the next does not
      unless the cap was reached. */
  lemma SyncRunCounts(buf: seq<uint8>, off: nat)
    ensures forall i :: 0 <= i < SyncRun(buf, off) ==> SyncAt(buf, off, i)
    ensures SyncRun(buf, off) < MaxSyncRun ==> !SyncAt(buf, off, SyncRun(buf, off))
  {
    RunFromCounts(buf, off, 0);
  }

  /** `s` is the lowest offset in 0..187 with the longest sync run. */
  ghost predicate IsBestSkip(buf: seq<uint8>, s: nat) {
    s < PacketSize &&
    forall o :: 0 <= o < PacketSize ==>
      SyncRun(buf, o) <= SyncRun(buf, s) && (o < s ==> SyncRun(buf, o) < SyncRun(buf, s))
  }

  /** At most one offset is the best. */
  lemma BestSkipUnique(buf: seq<uint8>, a: nat, b: nat)
    requires IsBestSkip(buf, a) && IsBestSkip(buf, b)
    ensures a == b
  {
    assert a < b ==> SyncRun(buf, a) < SyncRun(buf, b);
    assert b < a ==> SyncRun(buf, b) < SyncRun(buf, a);
  }

  /** The best offset lies inside the buffer, at a sync byte unless no offset has one. */
  lemma BestSkipInBuffer(buf: seq<uint8>, s: nat)
    requires IsBestSkip(buf, s)
    ensures s <= |buf|
    ensures SyncRun(buf, s) == 0 ==> s == 0
    ensures SyncRun(buf, s) > 0 ==> s < |buf| && buf[s] == SyncByte
  {
    assert 0 < s ==> SyncRun(buf, 0) < SyncRun(buf, s);
    assert SyncRun(buf, s) > 0 ==> SyncAt(buf, s, 0);
  }

  /** The state of the scan over offsets after offsets 0..o-1 were looked at:
      `best` is the first offset with the longest run `sync` seen so far. */
  ghost predicate Scanned(buf: seq<uint8>, o: nat, best: nat, sync: nat) {
    o <= PacketSize && best < PacketSize &&
    (forall o' :: 0 <= o' < o ==> SyncRun(buf, o') <= sync) &&
    (forall o' :: 0 <= o' < best ==> SyncRun(buf, o') < sync) &&
    (sync == 0 ==> best == 0) &&
    (sync > 0 ==> best < o && SyncRun(buf, best) == sync)
  }

  /** Reference definition of the chosen offset: scan the offsets from `o` to
      187, replacing the best offset so far only by one with a strictly
      longer run. */
  function BestFrom(buf: seq<uint8>, o: nat, best: nat, sync: nat): (s: nat)
    requires o <= PacketSize && best < PacketSize
    ensures s < PacketSize
    decreases PacketSize - o
  {
    if o == PacketSize then best
    else if sync < SyncRun(buf, o) then BestFrom(buf, o + 1, o, SyncRun(buf, o))
    else BestFrom(buf, o + 1, best, sync)
  }

  /** The offset ts_alignment_filter skips: the scan from offset 0 with no run yet. */
  function BestSkip(buf: seq<uint8>): (s: nat)
    ensures s < PacketSize
  {
    BestFrom(buf, 0, 0, 0)
  }

  lemma {:induction false} BestFromIsBest(buf: seq<uint8>, o: nat, best: nat, sync: nat)
    requires Scanned(buf, o, best, sync)
    ensures IsBestSkip(buf, BestFrom(buf, o, best, sync))
    decreases PacketSize - o
  {
    if o < PacketSize {
      if sync < SyncRun(buf, o) {
        BestFromIsBest(buf, o + 1, o, SyncRun(buf, o));
      } else {
        BestFromIsBest(buf, o + 1, best, sync);
      }
    }
  }

  /** The scan picks the lowest offset with the longest run. */
  lemma BestSkipIsBest(buf: seq<uint8>)
    ensures IsBestSkip(buf, BestSkip(buf))
  {
    BestFromIsBest(buf, 0, 0, 0);
  }

  lemma BestSkipWithin(buf: seq<uint8>)
    ensures BestSkip(buf) <= |buf|
  {
    BestSkipIsBest(buf);
    BestSkipInBuffer(buf, BestSkip(buf));
  }

  /** The inner loop of the skip search in ts_alignment_filter: count the
      sync bytes at stride 188 from `off`, stopping at the first other byte,
      at the end of the buffer or after MaxSyncRun of them. */
  method CountSyncs(buf: seq<uint8>, off: nat) returns (syncTmp: nat)
    ensures syncTmp == SyncRun(buf, off)
  {
    syncTmp := 0;
    while syncTmp < MaxSyncRun && syncTmp * 188 + off < |buf|
      invariant syncTmp <= MaxSyncRun
      invariant RunFrom(buf, off, syncTmp) == SyncRun(buf, off)
    {
      if buf[syncTmp * 188 + off] != SyncByte {
        break;
      }
      syncTmp := syncTmp + 1;
    }
  }

  /** The outer loop of the skip search in ts_alignment_filter: keep the first
      offset whose run is longer than any before it. */
  method ChooseSkip(buf: seq<uint8>) returns (skip: nat)
    ensures skip == BestSkip(buf)
  {
    var sync := 0;
    skip := 0;
    var skipTmp := 0;
    while skipTmp < PacketSize
      invariant 0 <= skipTmp <= PacketSize && skip < PacketSize
      invariant BestFrom(buf, skipTmp, skip, sync) == BestSkip(buf)
    {
      var syncTmp := CountSyncs(buf, skipTmp);
      if sync < syncTmp {
        sync := syncTmp;
        skip := skipTmp;
      }
      skipTmp := skipTmp + 1;
    }
  }

  /** `size` doubled k times. */
  function Doubled(size: int, k: nat): int
    decreases k
  {
    if k == 0 then size else 2 * Doubled(size, k - 1)
  }

  /** r is `size` doubled some number of times. */
  ghost predicate IsDoubling(size: int, r: int) {
    exists k: nat :: r == Doubled(size, k)
  }

  /** The capacity loop of ts_alignment_filter: double until `need` fits.
      The result is the smallest doubling of `size` that holds `need`. */
  method GrowCapacity(size: int, need: int) returns (r: int)
    requires size > 0
    ensures r >= need && r >= size
    ensures IsDoubling(size, r)
    ensures r == size || r < 2 * need
  {
    r := size;
    ghost var k: nat := 0;
    while need > r
      invariant r >= size && r == Doubled(size, k)
      invariant r == size || r < 2 * need
      decreases need - r
    {
      r := r * 2;
      k := k + 1;
    }
  }

  /** The largest multiple of the packet size not above m. */
  function WholePackets(m: nat): (r: nat)
    ensures r % 188 == 0 && r <= m && m - r < PacketSize
  {
    m / 188 * 188
  }

  /** What one call of ts_alignment_filter does to the buffered bytes. */
  datatype Aligned = Aligned(skip: nat, out: seq<uint8>, rest: seq<uint8>)

  /** The cut at offset `skip`: the largest whole number of packets after
      it, then the tail. */
  function CutAt(buf: seq<uint8>, skip: nat): (r: Aligned)
    requires skip <= |buf|
    ensures r.skip == skip && |r.out| % 188 == 0 && |r.rest| < PacketSize
    ensures skip + |r.out| + |r.rest| == |buf|
    ensures buf[skip..] == r.out + r.rest
  {
    var n := WholePackets(|buf| - skip);
    assert buf[skip..] == buf[skip..skip + n] + buf[skip + n..];
    Aligned(skip, buf[skip..skip + n], buf[skip + n..])
  }

  /** Reference definition of one call on the buffered bytes (the carried-over
      remainder followed by the new input): cut at the best offset, emit the
      largest whole number of packets and keep the tail. */
  function Align(buf: seq<uint8>): (r: Aligned)
    ensures |r.out| % 188 == 0 && |r.rest| < PacketSize
  {
    BestSkipWithin(buf);
    CutAt(buf, BestSkip(buf))
  }

  /** Align is the cut at the offset the scan picks. */
  lemma AlignIsBestCut(buf: seq<uint8>)
    ensures BestSkip(buf) <= |buf| && Align(buf) == CutAt(buf, BestSkip(buf))
  {
    BestSkipWithin(buf);
  }

  /** Every buffered byte is accounted for: the skipped bytes, then the
      emitted packets, then the kept tail, in that order. */
  lemma AlignAccounts(buf: seq<uint8>)
    ensures Align(buf).skip < PacketSize
    ensures Align(buf).skip + |Align(buf).out| + |Align(buf).rest| == |buf|
    ensures buf[Align(buf).skip..] == Align(buf).out + Align(buf).rest
  {
    AlignIsBestCut(buf);
  }

  /** The offset Align cuts at is the lowest one with the longest run, and
      any offset with that property is it. */
  lemma AlignSkipIsBest(buf: seq<uint8>, s: nat)
    ensures IsBestSkip(buf, Align(buf).skip)
    ensures IsBestSkip(buf, s) ==> Align(buf).skip == s
  {
    BestSkipIsBest(buf);
    if IsBestSkip(buf, s) {
      BestSkipUnique(buf, s, BestSkip(buf));
    }
  }

  /** A stream that is already aligned on packet boundaries is not skipped into,
      and is emitted from its first byte. */
  lemma {:induction false} AlignedStreamNotSkipped(buf: seq<uint8>)
    requires forall k :: 0 <= k < MaxSyncRun && k * 188 < |buf| ==> SyncAt(buf, 0, k)
    ensures Align(buf).skip == 0
    ensures Align(buf).out == buf[..WholePackets(|buf|)]
  {
    var n0 := SyncRun(buf, 0);
    SyncRunCounts(buf, 0);
    forall o | 0 <= o < PacketSize
      ensures SyncRun(buf, o) <= n0
    {
      SyncRunCounts(buf, o);
      assert n0 < MaxSyncRun ==> n0 * 188 >= |buf| && !SyncAt(buf, o, n0);
    }
    assert IsBestSkip(buf, 0);
    AlignSkipIsBest(buf, 0);
    AlignIsBestCut(buf);
  }

  /** With no sync byte at any position, nothing is skipped. */
  lemma NoSyncNoSkip(buf: seq<uint8>)
    requires forall i :: 0 <= i < |buf| ==> buf[i] != SyncByte
    ensures Align(buf).skip == 0
  {
    var s := Align(buf).skip;
    AlignSkipIsBest(buf, s);
    assert s < |buf| ==> buf[s] != SyncByte;
    assert !SyncAt(buf, s, 0);
    BestSkipInBuffer(buf, s);
  }

  /** After fewer than 188 bytes of garbage, a full run of sync bytes that no
      earlier offset matches is found, and output starts with a sync byte. */
  lemma ResyncAfterGarbage(buf: seq<uint8>, n: nat)
    requires n < PacketSize && SyncRun(buf, n) == MaxSyncRun
    requires forall o :: 0 <= o < n ==> SyncRun(buf, o) < MaxSyncRun
    ensures Align(buf).skip == n
    ensures |Align(buf).out| > 0 && Align(buf).out[0] == SyncByte
  {
    assert IsBestSkip(buf, n);
    AlignSkipIsBest(buf, n);
    SyncRunCounts(buf, n);
    assert SyncAt(buf, n, 0);
    AlignIsBestCut(buf);
  }

  /** The cut ts_alignment_filter makes in the buffered bytes `b` once the
      skip offset `s` is chosen: the whole packets after it and the tail. */
  method CutBuffer(b: seq<uint8>, s: nat) returns (out: seq<uint8>, rest: seq<uint8>)
    requires s <= |b|
    ensures |out| % 188 == 0 && |rest| < PacketSize
    ensures s + |out| + |rest| == |b| && b[s..] == out + rest
    ensures CutAt(b, s) == Aligned(s, out, rest)
  {
    var outBytes := WholePackets(|b| - s);
    out := b[s..s + outBytes];
    rest := b[s + outBytes..];
  }

  /** ts_alignment_filter_t: the growable buffer and its bookkeeping. `buf`
      holds the `bytes` valid bytes; its last `remain` bytes are carried over
      to the next call; `bufSize` is the allocated capacity. */
  class AlignmentFilter {
    var buf: seq<uint8>
    var bufSize: int
    var remain: int
    var bytes: int
    var skip: int

    ghost predicate Valid()
      reads this
    {
      0 < bufSize && |buf| == bytes <= bufSize &&
      0 <= remain <= bytes && remain < PacketSize && 0 <= skip < PacketSize
    }

    /** The bytes carried over to the next call. */
    function Remainder(): (r: seq<uint8>)
      reads this
      requires Valid()
      ensures |r| == remain < PacketSize
    {
      buf[bytes - remain..]
    }

    /** create_ts_alignment_filter. */
    constructor ()
      ensures Valid() && Remainder() == []
      ensures bufSize == InitialBufSize && bytes == 0 && skip == 0
    {
      bufSize := InitialBufSize;
      buf := [];
      remain, bytes, skip := 0, 0, 0;
    }

    /** The first half of ts_alignment_filter: make room for the remainder
        followed by `input`, doubling the capacity until they fit, and return
        those bytes. */
    method Refill(input: seq<uint8>) returns (b: seq<uint8>)
      requires Valid()
      modifies this`bufSize
      ensures Valid()
      ensures b == Remainder() + input
      ensures |b| <= old(bufSize) ==> bufSize == old(bufSize)
      ensures |b| > old(bufSize) ==>
                bufSize >= |b| && bufSize < 2 * |b| && IsDoubling(old(bufSize), bufSize)
    {
      var n := remain + |input|;
      if n > bufSize {
        bufSize := GrowCapacity(bufSize, n);
      }
      b := buf[bytes - remain..] + input;
    }

    /** The second half of ts_alignment_filter: cut `b` and keep it, with
        its tail as the new remainder. */
    method Cut(b: seq<uint8>) returns (out: seq<uint8>)
      requires 0 < bufSize && |b| <= bufSize
      modifies this`buf, this`bytes, this`skip, this`remain
      ensures Valid() && buf == b
      ensures skip == Align(b).skip && out == Align(b).out
      ensures Remainder() == Align(b).rest
    {
      var s := ChooseSkip(b);
      AlignIsBestCut(b);
      var rest;
      out, rest := CutBuffer(b, s);
      buf, bytes, skip, remain := b, |b|, s, |rest|;
    }

    /** ts_alignment_filter: append `input` to the remainder, pick the skip
        offset, emit whole packets from it and keep the tail. */
    method Feed(input: seq<uint8>) returns (out: seq<uint8>)
      requires Valid()
      modifies this
      ensures Valid()
      ensures buf == old(Remainder()) + input
      ensures |buf| <= old(bufSize) ==> bufSize == old(bufSize)
      ensures |buf| > old(bufSize) ==>
                bufSize >= |buf| && bufSize < 2 * |buf| && IsDoubling(old(bufSize), bufSize)
      ensures skip == Align(buf).skip && out == Align(buf).out
      ensures Remainder() == Align(buf).rest
    {
      var b := Refill(input);
      out := Cut(b);
    }
  }

  /** default_decoder: a decoder that creates its alignment filter on first use
      and passes every chunk through it. */
  class DefaultDecoder {
    var filter: AlignmentFilter?
    var initFilter: bool

    ghost predicate Valid()
      reads this, filter
    {
      initFilter ==> filter != null && filter.Valid()
    }

    constructor ()
      ensures Valid() && !initFilter && filter == null
    {
      filter := null;
      initFilter := false;
    }

    /** The bytes carried over from the previous call: none before the first. */
    ghost function Carried(): seq<uint8>
      reads this, filter
      requires Valid()
    {
      if initFilter then filter.Remainder() else []
    }

    method Decode(input: seq<uint8>) returns (out: seq<uint8>)
      requires Valid()
      modifies this, filter
      ensures Valid() && initFilter && filter != null
      ensures old(initFilter) ==> filter == old(filter)
      ensures !old(initFilter) ==> fresh(filter)
      ensures out == Align(old(Carried()) + input).out
      ensures Carried() == Align(old(Carried()) + input).rest
    {
      ghost var carried := Carried();
      if !initFilter {
        filter := new AlignmentFilter();
        initFilter := true;
      }
      assert carried == filter.Remainder();
      out := filter.Feed(input);
    }
  }
}
