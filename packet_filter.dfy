/** The pass/drop decision of tsfilter (filter, tsfilter.c:144-194) and the
    per-packet dispatch of main_loop (tsfilter.c:230-251). The section
    parsers the dispatch feeds are not part of this model: the dispatch says
    which of them a packet goes to, and the write decision is taken on the
    registry as those parsers left it. */
module PacketFilter {
  import opened TsHeader
  import opened ProgInfo
  import opened Options
  import opened Services

  /** The event loop of filter over the first k records: some record has its
      event information and airs the event `eventId`. */
  function EventAmong(infos: seq<ProgRecord>, eventId: int, k: nat): (r: bool)
    requires k <= |infos|
    ensures r <==> exists i :: 0 <= i < k && infos[i].status & GetEventInfo != 0 &&
                                infos[i].eventId == eventId
    decreases k
  {
    if k == 0 then false
    else (infos[k - 1].status & GetEventInfo != 0 && infos[k - 1].eventId == eventId) ||
         EventAmong(infos, eventId, k - 1)
  }

  /** curr_event of filter: the wanted event is on air in a registered service. */
  function CurrEvent(infos: seq<ProgRecord>, eventId: int): (r: bool)
    ensures r <==> exists i :: 0 <= i < |infos| && infos[i].status & GetEventInfo != 0 &&
                                infos[i].eventId == eventId
  {
    EventAmong(infos, eventId, |infos|)
  }

  /** The PID loop of filter over the first k PIDs of the list. */
  function PidAmong(pid: int, pids: seq<int>, k: nat): (r: bool)
    requires k <= |pids|
    ensures r <==> pid in pids[..k]
    decreases k
  {
    if k == 0 then false
    else
      assert pids[..k] == pids[..k - 1] + [pids[k - 1]];
      pids[k - 1] == pid || PidAmong(pid, pids, k - 1)
  }

  /** Some PID option is in force: a PID list, pat or pmt. */
  predicate SelectsPids(c: Config) {
    |c.filterPids| > 0 || c.addPat || c.addPmt
  }

  /** filter: whether the packet on `pid` is written, given the options, the
      program records and the PMT states of the registered services. */
  function Filter(pid: int, c: Config, infos: seq<ProgRecord>, pmts: seq<PsiParse>): (pass: bool)
    ensures pass <==>
      !c.setFilter ||
      ((c.filterEventId <= 0 ||
        exists i :: 0 <= i < |infos| && infos[i].status & GetEventInfo != 0 &&
                    infos[i].eventId == c.filterEventId) &&
       (if SelectsPids(c)
        then pid in c.filterPids || (c.addPat && pid == 0) ||
             (c.addPmt && exists i :: 0 <= i < |pmts| && pmts[i].pid == pid)
        else c.filterEventId > 0))
  {
    if !c.setFilter then true
    else
      var currEvent := c.filterEventId > 0 && CurrEvent(infos, c.filterEventId);
      if c.filterEventId > 0 && !currEvent then false
      else if |c.filterPids| > 0 && PidAmong(pid, c.filterPids, |c.filterPids|) then true
      else if c.addPat && IsPat(pid) then true
      else if c.addPmt && IsPmt(pid, pmts) then true
      else currEvent && !SelectsPids(c)
  }

  /** With no filtering option every packet passes. */
  lemma {:induction false} NoOptionPassesAll(args: seq<string>, atoi: string -> int, pid: int,
                                             infos: seq<ProgRecord>, pmts: seq<PsiParse>)
    requires forall a :: a in args ==> !EnablesFilter(a, atoi)
    ensures Filter(pid, ApplyArgs(Defaults, args, atoi), infos, pmts)
  {
    FilterSwitchedOn(args, atoi);
  }

  /** While the wanted event is not on air in any registered service, no
      packet passes, whatever its PID. */
  lemma EventMissRejects(pid: int, c: Config, infos: seq<ProgRecord>, pmts: seq<PsiParse>)
    requires c.setFilter && c.filterEventId > 0
    requires forall i :: 0 <= i < |infos| && infos[i].status & GetEventInfo != 0 ==>
                           infos[i].eventId != c.filterEventId
    ensures !Filter(pid, c, infos, pmts)
  {
  }

  /** With filtering on, no event id above 0 and no PID option, filter
      passes nothing: the closing test wants a matched event. */
  lemma NoEventNoPidRejects(pid: int, c: Config, infos: seq<ProgRecord>, pmts: seq<PsiParse>)
    requires c.setFilter && c.filterEventId <= 0 && !SelectsPids(c)
    ensures !Filter(pid, c, infos, pmts)
  {
  }

  /** event_id=0 is accepted and turns filtering on, but the event test of
      filter only applies to ids above 0; with no other option, no packet
      passes. */
  lemma EventIdZeroRejectsAll(atoi: string -> int, pid: int,
                              infos: seq<ProgRecord>, pmts: seq<PsiParse>)
    requires atoi("0") == 0
    ensures ApplyArgs(Defaults, ["event_id=0"], atoi).setFilter
    ensures ApplyArgs(Defaults, ["event_id=0"], atoi).filterEventId == 0
    ensures !Filter(pid, ApplyArgs(Defaults, ["event_id=0"], atoi), infos, pmts)
  {
    var arg := "event_id=0";
    assert StartsWith(arg, EventIdPrefix);
    assert arg[|EventIdPrefix|..] == "0";
    assert ["event_id=0"][..0] == [];
    NoEventNoPidRejects(pid, ApplyArgs(Defaults, ["event_id=0"], atoi), infos, pmts);
  }

  /** The parsers main_loop hands a packet to. */
  datatype Route = NoParser | PatParser | PmtEitParsers

  /** A packet whose header parsed and is not scrambled goes to the PAT
      parser until a service is registered, and then to every registered PMT
      parser and the three EIT parsers. */
  function RouteOf(h: Option<Header>, nServices: int): (r: Route)
    ensures r == NoParser <==> h.None? || h.value.transportScramblingControl != 0
    ensures r == PatParser ==> nServices == 0
    ensures r == PmtEitParsers ==> nServices != 0
  {
    if h.None? || h.value.transportScramblingControl != 0 then NoParser
    else if nServices == 0 then PatParser
    else PmtEitParsers
  }

  /** Whether main_loop writes the packet, on the registry as the parsers
      left it. With filtering off every packet is written, including those
      whose header does not parse; with filtering on, a packet whose header
      does not parse is dropped and a parsed one is written iff filter passes
      its PID. */
  function Written(h: Option<Header>, c: Config, infos: seq<ProgRecord>, pmts: seq<PsiParse>): (w: bool)
    ensures !c.setFilter ==> w
    ensures c.setFilter && h.None? ==> !w
    ensures h.Some? ==> (w <==> Filter(h.value.pid, c, infos, pmts))
  {
    match h
    case None => !c.setFilter
    case Some(hd) => Filter(hd.pid, c, infos, pmts)
  }

  /** With only pat (add_pmt) in force, a packet is written iff it is on the
      PID of a registered PMT. */
  lemma PatOptionSelectsPmts(pid: int, c: Config, infos: seq<ProgRecord>, pmts: seq<PsiParse>)
    requires c.setFilter && c.filterEventId <= 0 && c.filterPids == [] && !c.addPat && c.addPmt
    ensures Filter(pid, c, infos, pmts) <==> IsPmt(pid, pmts)
  {
  }

  /** With only pmt (add_pat) in force, only the PAT's PID passes. */
  lemma PmtOptionSelectsPat(pid: int, c: Config, infos: seq<ProgRecord>, pmts: seq<PsiParse>)
    requires c.setFilter && c.filterEventId <= 0 && c.filterPids == [] && c.addPat && !c.addPmt
    ensures Filter(pid, c, infos, pmts) <==> pid == 0
  {
  }
}
