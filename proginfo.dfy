/** Status flags, capacities and section-parser states of the per-service
    program record (utils/arib_proginfo.h). */
module ProgInfo {
  import opened TsHeader

  /** proginfo_t.status is a C int used only as a bitmask. */
  type Status = bv32

  const GetPat: Status := 1
  const GetPmt: Status := 2
  const GetServiceInfo: Status := 4
  const GetEventInfo: Status := 8
  const GetShortText: Status := 16
  const GetExtendText: Status := 32
  const GetGenre: Status := 64
  const UnknownStartTime: Status := 128
  const UnknownDuration: Status := 256
  const ReadyUpdated: Status := 512
  const ValidPcr: Status := 1024
  const PcrUpdated: Status := 2048
  const GetTot: Status := 4096
  const ValidTotPcr: Status := 8192

  const Get: Status := GetPat | GetServiceInfo | GetEventInfo | GetShortText
  const GetAll: Status := Get | GetExtendText | GetGenre
  const TimeInfo: Status := ValidPcr | GetTot | ValidTotPcr

  /** Every PGINFO_* flag, in the order of the header. */
  const Flags: seq<Status> := [GetPat, GetPmt, GetServiceInfo, GetEventInfo, GetShortText,
                               GetExtendText, GetGenre, UnknownStartTime, UnknownDuration,
                               ReadyUpdated, ValidPcr, PcrUpdated, GetTot, ValidTotPcr]

  const MaxPidsPerService := 64
  const MaxServicesPerCh := 32
  /** Capacity of Cd_t.items, the genre entries of one event. */
  const MaxGenreItems := 8

  /** The PCR base is a 33-bit count of a 90 kHz clock. */
  const PcrBaseMax := 0x2_0000_0000
  const PcrBaseHz := 90 * 1000

  /** PGINFO_READY(s): the PAT, service, event and short-text parts are present. */
  function Ready(s: Status): (r: bool)
    ensures r <==> s & GetPat != 0 && s & GetServiceInfo != 0
                   && s & GetEventInfo != 0 && s & GetShortText != 0
  {
    s & Get == Get
  }

  /** PGINFO_READY_TIMESTAMP(s): a valid PCR and a TOT correlated with it are present. */
  function ReadyTimestamp(s: Status): (r: bool)
    ensures r <==> s & ValidPcr != 0 && s & GetTot != 0 && s & ValidTotPcr != 0
  {
    s & TimeInfo == TimeInfo
  }

  /** The k-th flag of the header is bit k. */
  lemma FlagsAreBits()
    ensures |Flags| == 14
    ensures forall k :: 0 <= k < |Flags| ==> Flags[k] == (1 as bv32) << k
  {
  }

  /** Setting one flag never changes whether another is set. */
  lemma FlagsIndependent(s: Status, i: nat, j: nat)
    requires i < |Flags| && j < |Flags| && i != j
    ensures (s | Flags[i]) & Flags[j] == s & Flags[j]
    ensures Flags[i] & Flags[j] == 0
  {
    FlagsAreBits();
    var a, b := (1 as bv32) << i, (1 as bv32) << j;
    assert a & b == 0;
  }

  /** Adding bits never makes a ready status unready. */
  lemma ReadyMonotone(s: Status, extra: Status)
    ensures Ready(s) ==> Ready(s | extra)
    ensures ReadyTimestamp(s) ==> ReadyTimestamp(s | extra)
  {
  }

  /** The PMT, extended-text and genre bits do not take part in Ready. */
  lemma ReadyIgnoresOptionalParts(s: Status)
    ensures Ready(s) == Ready(s | GetPmt | GetExtendText | GetGenre)
    ensures Ready(s) == Ready(s & !(GetPmt | GetExtendText | GetGenre))
    ensures Ready(GetAll) && GetAll & Get == Get
  {
  }

  lemma PcrConstants()
    ensures PcrBaseMax == ((1 as bv34) << 33) as int && PcrBaseHz == 90000
  {
  }

  /** PSI_stat_t: the state of one section parser. */
  datatype PsiStat = PayloadInit | PayloadProc | PayloadFinished {
    /** The enumerator value of the C enum. */
    function Code(): (n: nat)
      ensures n < 3
      ensures n == 0 <==> this == PayloadInit
    {
      match this
      case PayloadInit => 0
      case PayloadProc => 1
      case PayloadFinished => 2
    }
  }

  function StatOfCode(n: int): (r: Option<PsiStat>)
    ensures r.Some? <==> 0 <= n < 3
  {
    if n == 0 then Some(PayloadInit)
    else if n == 1 then Some(PayloadProc)
    else if n == 2 then Some(PayloadFinished)
    else None
  }

  /** The three states have distinct codes 0, 1, 2. */
  lemma StatCodesRoundTrip(s: PsiStat)
    ensures StatOfCode(s.Code()) == Some(s)
  {
  }

  /** The part of PSI_parse_t the filter reads and writes: its PID and state.
      The section buffers belong to the section assembler, not part of this model. */
  datatype PsiParse = PsiParse(pid: int, stat: PsiStat)

  type U16 = x: int | 0 <= x < 0x10000

  /** The part of proginfo_t the filter reads: status bits, service_id and
      event_id (both 16-bit bit-fields). The remaining fields are written only
      by the table parsers. */
  datatype ProgRecord = ProgRecord(status: Status, serviceId: U16, eventId: U16)
}
