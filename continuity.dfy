/** Per-PID continuity_counter tracking (ts_packet_counter in
    core/default_decoder.c), a simplified form of the continuity_counter rule
    of section 2.4.3.3 of ISO/IEC 13818-1: a duplicate packet counts as a drop
    (DuplicateIsDrop), and the discontinuity_indicator is not read. */
module Continuity {
  import opened TsHeader

  /** ts_counter has one entry per 13-bit PID. */
  const TableSize := 0x2000
  /** Stored counters are offset by 16 so that 0 means "PID never seen". */
  const Offset := 16

  /** The three global packet counters and the counter table. */
  datatype Counters = Counters(total: int, drops: int, scrambled: int, table: seq<int>)

  /** The table has one entry per PID and every entry is 0 or a stored counter. */
  predicate WellFormed(c: Counters) {
    |c.table| == TableSize &&
    forall p :: 0 <= p < |c.table| ==> c.table[p] == 0 || Offset <= c.table[p] < Offset + 16
  }

  /** The next counter value, modulo 16. */
  function Succ(x: Nibble): Nibble { if x == 15 then 0 else x + 1 }

  /** The previous counter value, modulo 16. */
  function Pred(x: Nibble): Nibble { if x == 0 then 15 else x - 1 }

  /** The counter a packet is expected to carry after the stored entry `entry`
      (a counter plus Offset): one more when the packet has a payload, the same
      counter otherwise. */
  function Expected(entry: int, afc: Bits2): (r: Nibble)
    requires Offset <= entry < Offset + 16
    ensures HasPayload(afc) ==> r == Succ(entry - Offset)
    ensures !HasPayload(afc) ==> r == entry - Offset
  {
    if afc % 2 == 1 then (entry + 1) % 16 else entry % 16
  }

  /** Whether ts_packet_counter counts a drop for header `h`. */
  predicate IsDrop(c: Counters, h: Option<Header>)
    requires WellFormed(c)
  {
    match h
    case None => true
    case Some(h) =>
      h.pid != NullPid && c.table[h.pid] != 0
      && Expected(c.table[h.pid], h.adaptationFieldControl) != h.continuityCounter
  }

  /** The effect of one call of ts_packet_counter. */
  function Step(c: Counters, h: Option<Header>): (r: Counters)
    requires WellFormed(c)
    ensures WellFormed(r)
    ensures r.total == c.total + 1
    ensures r.drops == c.drops + (if IsDrop(c, h) then 1 else 0)
    ensures h.None? || h.value.pid == NullPid ==> r.table == c.table
    ensures h.Some? && h.value.pid != NullPid ==>
              r.table == c.table[h.value.pid := h.value.continuityCounter + Offset]
  {
    var c := c.(total := c.total + 1);
    match h
    case None => c.(drops := c.drops + 1)
    case Some(h) =>
      if h.pid == NullPid then c
      else
        var c := if h.transportScramblingControl != 0 then c.(scrambled := c.scrambled + 1) else c;
        var entry := c.table[h.pid];
        var c := if entry != 0 && Expected(entry, h.adaptationFieldControl) != h.continuityCounter
                 then c.(drops := c.drops + 1) else c;
        c.(table := c.table[h.pid := h.continuityCounter + Offset])
  }

  /** A header that did not parse counts as a drop and touches nothing else. */
  lemma MissingHeaderIsDrop(c: Counters)
    requires WellFormed(c)
    ensures Step(c, None) == c.(total := c.total + 1, drops := c.drops + 1)
  {
  }

  /** A null packet changes only the total. */
  lemma NullPacketIgnored(c: Counters, h: Header)
    requires WellFormed(c) && h.pid == NullPid
    ensures Step(c, Some(h)) == c.(total := c.total + 1)
  {
  }

  /** The first packet seen on a PID is never a drop. */
  lemma FirstPacketNotDrop(c: Counters, h: Header)
    requires WellFormed(c) && h.pid != NullPid && c.table[h.pid] == 0
    ensures Step(c, Some(h)).drops == c.drops
  {
  }

  /** On a PID seen before, a drop is counted exactly when the counter is not
      the successor of the last one (payload) or the last one itself (no payload). */
  lemma SeenPidDropRule(c: Counters, h: Header)
    requires WellFormed(c) && h.pid != NullPid && c.table[h.pid] != 0
    ensures var last := c.table[h.pid] - Offset;
            var expected := if HasPayload(h.adaptationFieldControl) then (last + 1) % 16 else last;
            Step(c, Some(h)).drops == c.drops + (if h.continuityCounter != expected then 1 else 0)
  {
  }

  /** Unlike section 2.4.3.3 of ISO/IEC 13818-1, which lets one duplicate
      payload packet repeat the counter, a repeated counter on a payload
      packet is counted as a drop. */
  lemma DuplicateIsDrop(c: Counters, pid: Pid, e: Nibble)
    requires WellFormed(c) && pid != NullPid && c.table[pid] == Offset + e
    ensures Step(c, Some(Header(pid, 0, 1, e))).drops == c.drops + 1
  {
    SeenPidDropRule(c, Header(pid, 0, 1, e));
  }

  /** A non-null packet records its counter, whether or not it matched, and
      changes no other entry; the scrambled count grows iff it is scrambled. */
  lemma RecordsCounter(c: Counters, h: Header)
    requires WellFormed(c) && h.pid != NullPid
    ensures var r := Step(c, Some(h));
            && r.table[h.pid] == h.continuityCounter + Offset
            && r.table[h.pid] != 0
            && (forall p :: 0 <= p < TableSize && p != h.pid ==> r.table[p] == c.table[p])
            && r.scrambled == c.scrambled + (if h.transportScramblingControl != 0 then 1 else 0)
  {
  }

  /** ts_packet_counter applied to a sequence of headers, in order. */
  function Run(c: Counters, hs: seq<Option<Header>>): (r: Counters)
    requires WellFormed(c)
    ensures WellFormed(r)
    decreases |hs|
  {
    if hs == [] then c else Run(Step(c, hs[0]), hs[1..])
  }

  lemma {:induction false} RunAppend(c: Counters, a: seq<Option<Header>>, b: seq<Option<Header>>)
    requires WellFormed(c)
    ensures Run(c, a + b) == Run(Run(c, a), b)
    decreases |a|
  {
    if a == [] {
      assert a + b == b;
    } else {
      assert (a + b)[0] == a[0];
      assert (a + b)[1..] == a[1..] + b;
      RunAppend(Step(c, a[0]), a[1..], b);
    }
  }

  /** The counter value n steps after x. */
  function Advance(x: Nibble, n: nat): Nibble
    decreases n
  {
    if n == 0 then x else Advance(Succ(x), n - 1)
  }

  /** Predecessor and successor modulo 16 undo each other. */
  lemma PredSucc(x: Nibble)
    ensures Pred(Succ(x)) == x && Succ(Pred(x)) == x && Succ(x) != x
  {
  }

  /** n unscrambled payload packets on `pid` whose counters count up from `first`. */
  function Contiguous(pid: Pid, first: Nibble, n: nat): (hs: seq<Option<Header>>)
    ensures |hs| == n
    ensures forall k :: 0 <= k < n ==> hs[k].Some? && hs[k].value.pid == pid
    decreases n
  {
    if n == 0 then [] else [Some(Header(pid, 0, 1, first))] + Contiguous(pid, Succ(first), n - 1)
  }

  /** The stored entry is consistent with a next packet carrying counter `next`. */
  predicate Continues(c: Counters, pid: Pid, next: Nibble)
    requires WellFormed(c)
  {
    c.table[pid] == 0 || c.table[pid] == Offset + Pred(next)
  }

  /** Counters first, first + 1, ... (modulo 16) on one PID produce no drop,
      and leave the table expecting the following counter. */
  lemma {:induction false} ContiguousNoDrops(c: Counters, pid: Pid, first: Nibble, n: nat)
    requires WellFormed(c) && pid != NullPid && Continues(c, pid, first)
    ensures var r := Run(c, Contiguous(pid, first, n));
            r.drops == c.drops && Continues(r, pid, Advance(first, n))
            && (n > 0 ==> r.table[pid] != 0)
    decreases n
  {
    if n > 0 {
      var hs := Contiguous(pid, first, n);
      var c' := Step(c, hs[0]);
      assert hs[1..] == Contiguous(pid, Succ(first), n - 1);
      assert c'.drops == c.drops by {
        if c.table[pid] != 0 {
          PredSucc(first);
        }
      }
      assert c'.table[pid] == Offset + first;
      PredSucc(first);
      ContiguousNoDrops(c', pid, Succ(first), n - 1);
    }
  }

  /** A payload packet whose counter is one further on than the table
      expects is one drop, and the table then expects the counter after it. */
  lemma SkippedCounterIsDrop(c: Counters, pid: Pid, e: Nibble)
    requires WellFormed(c) && pid != NullPid && c.table[pid] == Offset + Pred(e)
    ensures var r := Step(c, Some(Header(pid, 0, 1, Succ(e))));
            r.drops == c.drops + 1 && Continues(r, pid, Succ(Succ(e)))
  {
    PredSucc(e);
    PredSucc(Succ(e));
    assert Expected(c.table[pid], 1) == Succ(Pred(e)) == e;
    assert IsDrop(c, Some(Header(pid, 0, 1, Succ(e))));
  }

  /** Removing one packet, neither the first nor the last, from a contiguous
      run on a PID produces exactly one drop. */
  lemma OneMissingPacketOneDrop(c: Counters, pid: Pid, first: Nibble, j: nat, m: nat)
    requires WellFormed(c) && pid != NullPid && Continues(c, pid, first)
    requires j >= 1 && m >= 1
    ensures Run(c, Contiguous(pid, first, j) + Contiguous(pid, Succ(Advance(first, j)), m)).drops
            == c.drops + 1
  {
    var a := Contiguous(pid, first, j);
    var e := Advance(first, j);
    var next := Succ(e);
    var b := Contiguous(pid, next, m);
    RunAppend(c, a, b);
    var ca := Run(c, a);
    ContiguousNoDrops(c, pid, first, j);
    PredSucc(e);
    assert ca.table[pid] == Offset + Pred(e);
    assert b[0] == Some(Header(pid, 0, 1, next));
    var cb := Step(ca, b[0]);
    SkippedCounterIsDrop(ca, pid, e);
    assert Run(ca, b) == Run(cb, b[1..]);
    assert b[1..] == Contiguous(pid, Succ(next), m - 1);
    ContiguousNoDrops(cb, pid, Succ(next), m - 1);
  }

  /** The global counters ts_n_total, ts_n_drops, ts_n_scrambled and the
      static table ts_counter. */
  class PacketCounter {
    var nTotal: int
    var nDrops: int
    var nScrambled: int
    const table: array<int>

    function Snapshot(): Counters
      reads this, table
    {
      Counters(nTotal, nDrops, nScrambled, table[..])
    }

    ghost predicate Valid()
      reads this, table
    {
      WellFormed(Snapshot())
    }

    /** The zero-initialised globals. */
    constructor ()
      ensures Valid() && fresh(table)
      ensures Snapshot() == Counters(0, 0, 0, seq(TableSize, _ => 0))
    {
      nTotal, nDrops, nScrambled := 0, 0, 0;
      table := new int[TableSize](_ => 0);
    }

    /** ts_packet_counter: account for one packet header, or for a packet
        whose header did not parse. */
    method Count(h: Option<Header>)
      requires Valid()
      modifies this, table
      ensures Valid()
      ensures Snapshot() == Step(old(Snapshot()), h)
    {
      nTotal := nTotal + 1;
      if h.None? {
        nDrops := nDrops + 1;
        return;
      }
      var tsh := h.value;
      if tsh.pid == NullPid {
        return;
      }
      if tsh.transportScramblingControl != 0 {
        nScrambled := nScrambled + 1;
      }
      if table[tsh.pid] != 0 {
        var counterShouldBe;
        if tsh.adaptationFieldControl % 2 == 1 {
          counterShouldBe := (table[tsh.pid] + 1) % 16;
        } else {
          counterShouldBe := table[tsh.pid] % 16;
        }
        if counterShouldBe != tsh.continuityCounter {
          nDrops := nDrops + 1;
        }
      }
      table[tsh.pid] := tsh.continuityCounter + Offset;
    }
  }
}
