/** The service registry of tsfilter: parse_set_t, init_set, pat_handler and
    the lookups over the registered services (tsfilter.c:44-54, 72-142).
    The section parsers that fill the records (parse_PAT, parse_PMT,
    parse_EIT, store_PAT, init_proginfo) are not part of this model:
    store_PAT is a parameter and init_proginfo's result is given as `blank`. */
module Services {
  import opened TsHeader
  import opened ProgInfo

  /** The PID that carries the PAT (table 2-3 of ISO/IEC 13818-1). */
  const PatPid := 0

  /** PAT_item_t: one program of the PAT. */
  datatype PatItem = PatItem(programNumber: int, pid: int)

  /** The two fields of EIT_header_t that find_curr_service_eit reads. */
  datatype EitHeader = EitHeader(sectionNumber: int, serviceId: int)

  /** pat_handler registers an item iff the table has room and the item is
      not the network entry (program_number 0). */
  predicate Accepts(nServices: int, item: PatItem) {
    nServices < MaxServicesPerCh && item.programNumber != 0
  }

  /** The PMT table after pat_handler: one new slot for the item's PID in
      state INIT when it is accepted. */
  function Register(pmts: seq<PsiParse>, item: PatItem): (r: seq<PsiParse>)
    ensures |r| == |pmts| + (if Accepts(|pmts|, item) then 1 else 0)
    ensures r[..|pmts|] == pmts
    ensures |r| > |pmts| ==> r[|pmts|] == PsiParse(item.pid, PayloadInit)
    ensures |pmts| <= MaxServicesPerCh ==> |r| <= MaxServicesPerCh
  {
    if Accepts(|pmts|, item) then pmts + [PsiParse(item.pid, PayloadInit)] else pmts
  }

  /** The items of one PAT handed to pat_handler in order. */
  function RegisterAll(pmts: seq<PsiParse>, items: seq<PatItem>): seq<PsiParse>
    decreases |items|
  {
    if items == [] then pmts
    else Register(RegisterAll(pmts, items[..|items| - 1]), items[|items| - 1])
  }

  /** The PMT slot each program other than program 0 asks for, in order. */
  function Programs(items: seq<PatItem>): (r: seq<PsiParse>)
    ensures |r| <= |items|
    decreases |items|
  {
    if items == [] then []
    else
      var item := items[|items| - 1];
      Programs(items[..|items| - 1]) +
        (if item.programNumber != 0 then [PsiParse(item.pid, PayloadInit)] else [])
  }

  /** A PAT fills the free slots with its programs in order, program 0
      excluded, and drops those that do not fit: the table never exceeds
      MAX_SERVICES_PER_CH and its earlier slots are kept. */
  lemma {:induction false} RegisterAllFillsFreeSlots(pmts: seq<PsiParse>, items: seq<PatItem>)
    requires |pmts| <= MaxServicesPerCh
    ensures RegisterAll(pmts, items) == pmts + Prefix(Programs(items), MaxServicesPerCh - |pmts|)
    decreases |items|
  {
    if items != [] {
      var init, item := items[..|items| - 1], items[|items| - 1];
      RegisterAllFillsFreeSlots(pmts, init);
      var progs := Programs(init);
      var free := MaxServicesPerCh - |pmts|;
      if item.programNumber != 0 {
        var slot := PsiParse(item.pid, PayloadInit);
        assert Programs(items) == progs + [slot];
        if |progs| < free {
          assert Prefix(progs + [slot], free) == progs + [slot];
          assert pmts + (progs + [slot]) == pmts + progs + [slot];
        } else {
          assert Prefix(progs + [slot], free) == (progs + [slot])[..free];
          assert (progs + [slot])[..free] == progs[..free];
        }
      } else {
        assert Programs(items) == progs;
      }
    }
  }

  /** parse_set_t: the PAT, PMT and EIT parser states and the program records
      of the registered services. network_PID is never read by the filter
      and is not modelled. */
  class ParseSet {
    var pat: PsiParse
    var eit12: PsiParse
    var eit26: PsiParse
    var eit27: PsiParse
    var nServices: int
    const pmts: array<PsiParse>
    const proginfos: array<ProgRecord>
    /** The record init_proginfo leaves in every slot. */
    ghost const blank: ProgRecord

    /** Both tables have MAX_SERVICES_PER_CH slots, n_services of them are in
        use, and the unused program records are still as init_set left them. */
    ghost predicate Valid()
      reads this, proginfos
    {
      pmts.Length == MaxServicesPerCh && proginfos.Length == MaxServicesPerCh &&
      0 <= nServices <= MaxServicesPerCh &&
      forall i :: nServices <= i < MaxServicesPerCh ==> proginfos[i] == blank
    }

    /** The PMT parser states of the registered services. */
    function PmtTable(): (r: seq<PsiParse>)
      reads this, pmts, proginfos
      requires Valid()
      ensures |r| == nServices
    {
      pmts[..nServices]
    }

    /** The program records of the registered services. */
    function Services(): (r: seq<ProgRecord>)
      reads this, proginfos
      requires Valid()
      ensures |r| == nServices
    {
      proginfos[..nServices]
    }

    /** init_set: the PAT parser on PID 0 and the EIT parsers on 0x12, 0x26
        and 0x27, all in state INIT, no service, and every program record
        initialised. The PMT states of unused slots are never read; the model
        gives them a placeholder. */
    constructor (blank: ProgRecord)
      ensures Valid() && this.blank == blank && nServices == 0
      ensures fresh(pmts) && fresh(proginfos)
      ensures pat == PsiParse(0, PayloadInit)
      ensures eit12 == PsiParse(0x12, PayloadInit)
      ensures eit26 == PsiParse(0x26, PayloadInit)
      ensures eit27 == PsiParse(0x27, PayloadInit)
      ensures PmtTable() == [] && Services() == []
    {
      pat := PsiParse(0, PayloadInit);
      eit12 := PsiParse(0x12, PayloadInit);
      eit26 := PsiParse(0x26, PayloadInit);
      eit27 := PsiParse(0x27, PayloadInit);
      nServices := 0;
      pmts := new PsiParse[MaxServicesPerCh](_ => PsiParse(0, PayloadInit));
      proginfos := new ProgRecord[MaxServicesPerCh];
      this.blank := blank;
      new;
      for i := 0 to MaxServicesPerCh
        modifies proginfos
        invariant forall j :: 0 <= j < i ==> proginfos[j] == blank
      {
        proginfos[i] := blank;
      }
    }

    /** pat_handler: register one program of the PAT. The new service's PMT
        parser is on the item's PID in state INIT, and its record is the
        initialised record with the PAT item stored in it. */
    method PatHandler(item: PatItem, storePat: (ProgRecord, PatItem) -> ProgRecord)
      requires Valid()
      modifies this`nServices, pmts, proginfos
      ensures Valid()
      ensures PmtTable() == Register(old(PmtTable()), item)
      ensures Services() == if Accepts(old(nServices), item)
                            then old(Services()) + [storePat(blank, item)]
                            else old(Services())
    {
      if nServices >= MaxServicesPerCh {
        return;
      }
      if item.programNumber != 0 {
        pmts[nServices] := PsiParse(item.pid, PayloadInit);
        proginfos[nServices] := storePat(proginfos[nServices], item);
        nServices := nServices + 1;
      }
    }
  }

  /** find_curr_service, from slot i on: the index of the first record whose
      service_id matches, or None. */
  function FindFrom(infos: seq<ProgRecord>, serviceId: int, i: nat): (r: Option<nat>)
    requires i <= |infos|
    ensures r.Some? ==> i <= r.value < |infos| && infos[r.value].serviceId == serviceId &&
                        forall j :: i <= j < r.value ==> infos[j].serviceId != serviceId
    ensures r.None? <==> forall j :: i <= j < |infos| ==> infos[j].serviceId != serviceId
    decreases |infos| - i
  {
    if i == |infos| then None
    else if infos[i].serviceId == serviceId then Some(i)
    else FindFrom(infos, serviceId, i + 1)
  }

  /** find_curr_service: the first of the registered records with this
      service_id, as an index (the source returns its address), or None. */
  function FindCurrService(infos: seq<ProgRecord>, serviceId: int): (r: Option<nat>)
    ensures r.Some? ==> r.value < |infos| && infos[r.value].serviceId == serviceId &&
                        forall j :: 0 <= j < r.value ==> infos[j].serviceId != serviceId
    ensures r.None? <==> forall j :: 0 <= j < |infos| ==> infos[j].serviceId != serviceId
  {
    FindFrom(infos, serviceId, 0)
  }

  /** find_curr_service_eit: only section 0 of an EIT describes the event on
      air; any other section finds nothing. */
  function FindCurrServiceEit(infos: seq<ProgRecord>, h: EitHeader): (r: Option<nat>)
    ensures h.sectionNumber != 0 ==> r.None?
    ensures h.sectionNumber == 0 ==> r == FindCurrService(infos, h.serviceId)
    ensures r.Some? ==> r.value < |infos| && infos[r.value].serviceId == h.serviceId
  {
    if h.sectionNumber != 0 then None else FindCurrService(infos, h.serviceId)
  }

  /** Two records with the same service_id: the lookup always lands on the
      earlier one. */
  lemma FirstOfDuplicatesWins(infos: seq<ProgRecord>, i: nat, j: nat)
    requires i < j < |infos| && infos[i].serviceId == infos[j].serviceId
    ensures FindCurrService(infos, infos[j].serviceId) != Some(j)
    ensures FindCurrService(infos, infos[j].serviceId).Some?
  {
    var r := FindCurrService(infos, infos[j].serviceId);
    assert r.Some? ==> r.value <= i;
  }

  /** is_pat: the PAT travels on PID 0. */
  predicate IsPat(pid: int): (r: bool)
    ensures r <==> pid == PatPid
  {
    pid == 0
  }

  /** is_pmt, over the first k registered PMT states. */
  function PmtAmong(pid: int, pmts: seq<PsiParse>, k: nat): (r: bool)
    requires k <= |pmts|
    ensures r <==> exists i :: 0 <= i < k && pmts[i].pid == pid
    decreases k
  {
    if k == 0 then false
    else pmts[k - 1].pid == pid || PmtAmong(pid, pmts, k - 1)
  }

  /** is_pmt: the PID carries the PMT of a registered service. */
  function IsPmt(pid: int, pmts: seq<PsiParse>): (r: bool)
    ensures r <==> exists i :: 0 <= i < |pmts| && pmts[i].pid == pid
  {
    PmtAmong(pid, pmts, |pmts|)
  }

  /** Registering a program makes its PID a PMT PID, and keeps every PID
      that already was one. */
  lemma RegisterMakesPmt(pmts: seq<PsiParse>, item: PatItem, pid: int)
    ensures IsPmt(pid, pmts) ==> IsPmt(pid, Register(pmts, item))
    ensures Accepts(|pmts|, item) ==> IsPmt(item.pid, Register(pmts, item))
    ensures !Accepts(|pmts|, item) ==> (IsPmt(pid, Register(pmts, item)) <==> IsPmt(pid, pmts))
  {
    var r := Register(pmts, item);
    if Accepts(|pmts|, item) {
      assert r[|pmts|].pid == item.pid;
      if IsPmt(pid, pmts) {
        var i :| 0 <= i < |pmts| && pmts[i].pid == pid;
        assert r[i] == pmts[i];
      }
    }
  }
}
