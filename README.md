# tsdump front end and tsfilter packet selection, in Dafny

This project models three sequential pieces of tsdump, a recorder for MPEG-2
transport streams (ISO/IEC 13818-1), together with the packet selection of its
companion tool tsfilter:

- **Alignment filter** (`core/default_decoder.c`). `ts_alignment_filter` keeps a
  growable byte buffer. It appends each chunk of input to the bytes carried
  over from the previous call, and doubles the buffer capacity until they fit.
  It then picks the skip offset in 0..187 whose run of 0x47 sync bytes at
  stride 188 (at most 4) is longest, the lowest such offset on a tie. It emits
  the largest whole number of 188-byte packets from that offset and carries the
  tail over to the next call. `default_decoder` creates the filter on its first
  call. The filter is the class `Alignment.AlignmentFilter` over a `seq<uint8>`
  with a capacity field. It is proved against the reference function
  `Alignment.Align`, and the selection rule and the byte accounting are proved
  about that function.
- **Continuity-counter tracker** (`ts_packet_counter`). This is a simplified
  form of the continuity_counter rule of section 2.4.3.3 of ISO/IEC 13818-1.
  It differs from that rule in two ways: a duplicate packet (same counter,
  payload present) counts as a drop (`Continuity.DuplicateIsDrop`), and the
  adaptation field's discontinuity_indicator is not read. It keeps a table of
  0x2000 entries, one per PID, where 0 means "never seen" and any other entry
  is the last counter plus 16. It also keeps the global packet, drop and
  scrambled counts. The class `Continuity.PacketCounter` works in place on an
  array and is proved against the pure step `Continuity.Step`. The
  per-packet rules and the run lemmas are proved about `Step`.
- **tsfilter**. This part covers:
  - the command-line options (`Options`);
  - the service registry filled from the PAT (`Services`);
  - the pass/drop decision `filter` and the per-packet dispatch of
    `main_loop` (`PacketFilter`).

  The option globals become one `Config` record, and the registry is the class
  `Services.ParseSet` over two fixed arrays of 32 slots.
- **Program-record flags** (`utils/arib_proginfo.h`). This covers the
  `PGINFO_*` bits, the `PGINFO_READY` and `PGINFO_READY_TIMESTAMP` tests, the
  capacity and PCR constants, and the three section-parser states (`ProgInfo`).

Collaborators whose bodies are not part of this model are parameters:

- The result of `parse_ts_header` is an `Option<Header>`, where `None` means
  the header did not parse.
- `tsd_atoi` is a function `string -> int`.
- The prefix test `tsd_strncmp(arg, p, strlen(p)) == 0` is `Options.StartsWith`,
  and the exact test `tsd_strcmp(arg, w) == 0` is string equality.
- `store_PAT` is a function `(ProgRecord, PatItem) -> ProgRecord`.
- The record `init_proginfo` produces is the value `blank`.

The options are modelled as written:

- `pmt` turns on `add_pat`, which lets PID 0 (the PAT) through. With no PID
  list, no `pat` and no event id above 0, PID 0 is the only one that passes
  (`PacketFilter.PmtOptionSelectsPat`).
- `pat` turns on `add_pmt`, which lets the registered PMT PIDs through. With no
  PID list, no `pmt` and no event id above 0, only those PIDs pass
  (`PacketFilter.PatOptionSelectsPmts`).
- `event_id=0` is accepted and switches filtering on. The event test in
  `filter` only applies to ids above 0, so with no other option `event_id=0`
  lets no packet through (`PacketFilter.EventIdZeroRejectsAll`).
- A PID argument is kept only if it lies in 0..4096, although a PID has 13
  bits (up to 0x1FFF). An argument for PIDs 4097..8191 is dropped and does
  not switch filtering on (`Options.PidAboveLimitIgnored`).

## Model

| member | source | states |
|---|---|---|
| ProgInfo.Ready | utils/arib_proginfo.h:16-19 | PGINFO_READY holds iff the PAT, service-info, event-info and short-text bits are all set |
| ProgInfo.ReadyTimestamp | utils/arib_proginfo.h:18-20 | PGINFO_READY_TIMESTAMP holds iff the valid-PCR, TOT and valid-TOT-PCR bits are all set |
| ProgInfo.FlagsAreBits | utils/arib_proginfo.h:1-14 | the fourteen flags are the bits 0..13, in order |
| ProgInfo.FlagsIndependent | utils/arib_proginfo.h:1-14 | two different flags share no bit, and setting one never changes whether another is set |
| ProgInfo.ReadyMonotone | utils/arib_proginfo.h:16-20 | OR-ing in extra bits never turns either predicate from true to false |
| ProgInfo.ReadyIgnoresOptionalParts | utils/arib_proginfo.h:16-19 | the PMT, extended-text and genre bits do not affect PGINFO_READY; PGINFO_GET_ALL contains PGINFO_GET and is ready |
| ProgInfo.PcrConstants | utils/arib_proginfo.h:25-26 | PCR_BASE_MAX is 2^33 (the range of the 33-bit PCR base) and PCR_BASE_HZ is 90000 |
| ProgInfo.PsiStat.Code | utils/arib_proginfo.h:34-38 | each parser state has a code below 3, and code 0 is INIT and only INIT |
| ProgInfo.StatOfCode | utils/arib_proginfo.h:34-38 | a code names a parser state iff it lies in 0..2 |
| ProgInfo.StatCodesRoundTrip | utils/arib_proginfo.h:34-38 | decoding a state's code gives back that state, so the three codes are distinct |
| Continuity.Expected | core/default_decoder.c:42-47 | the expected counter is the successor mod 16 of the last one when the packet has a payload, and the last one otherwise |
| Continuity.Step | core/default_decoder.c:22-55 | one call: the total grows by exactly one, the drop count grows by one exactly on a drop, the table stays well formed, and only the packet's entry changes (none for a missing header or a null packet) |
| Continuity.MissingHeaderIsDrop | core/default_decoder.c:28-31 | a header that did not parse adds one drop and changes nothing but the total and the drops |
| Continuity.NullPacketIgnored | core/default_decoder.c:33-35 | a packet on PID 0x1FFF changes only the total |
| Continuity.FirstPacketNotDrop | core/default_decoder.c:41 | the first packet seen on a PID is never a drop |
| Continuity.SeenPidDropRule | core/default_decoder.c:41-51 | on a seen PID, one drop is added iff the counter differs from (last + 1) mod 16 with a payload, or from last without one |
| Continuity.RecordsCounter | core/default_decoder.c:37-54 | a non-null packet stores its counter plus 16 (never 0) whether or not it matched, leaves every other entry, and adds one scrambled packet iff it is scrambled |
| Continuity.ContiguousNoDrops | core/default_decoder.c:41-54 | payload packets with counters counting up mod 16 from the expected one produce no drop, and leave the table expecting the next counter |
| Continuity.DuplicateIsDrop | core/default_decoder.c:42-51 | a payload packet that repeats the last counter on its PID adds one drop |
| Continuity.SkippedCounterIsDrop | core/default_decoder.c:42-51 | a counter one further on than expected is exactly one drop, and the count then resumes from it |
| Continuity.OneMissingPacketOneDrop | core/default_decoder.c:22-55 | taking one packet out of a contiguous run on a PID, neither the first nor the last, yields exactly one drop |
| Continuity.PacketCounter.constructor | core/default_decoder.c:17-20 | the counts start at zero and every table entry is 0 |
| Continuity.PacketCounter.Count | core/default_decoder.c:22-55 | the in-place update of the counts and the array is exactly Step, and the table stays well formed |
| Alignment.RunFrom | core/default_decoder.c:98-102 | the run count from packet k is between k and 4 |
| Alignment.SyncRun | core/default_decoder.c:98-102 | the run count at an offset is at most 4 |
| Alignment.RunFromCounts | core/default_decoder.c:98-102 | every packet counted from k starts with 0x47, and the packet after the run does not unless the cap was reached |
| Alignment.SyncRunCounts | core/default_decoder.c:98-102 | the run at an offset counts exactly the leading packets that start with 0x47 inside the buffer, capped at 4 |
| Alignment.BestSkipUnique | core/default_decoder.c:95-107 | at most one offset is the lowest offset with the longest run |
| Alignment.BestSkipInBuffer | core/default_decoder.c:95-107 | the best offset lies inside the buffer and is at a 0x47 byte unless no offset has a run |
| Alignment.BestFrom | core/default_decoder.c:97-107 | the scan from any point ends on an offset in 0..187 |
| Alignment.BestSkip | core/default_decoder.c:95-107 | the skip offset lies in 0..187 |
| Alignment.BestFromIsBest | core/default_decoder.c:97-107 | a scan that keeps the first strictly longer run ends on the lowest offset with the longest run |
| Alignment.BestSkipIsBest | core/default_decoder.c:95-107 | the skip the scan picks is the lowest offset with the longest run |
| Alignment.BestSkipWithin | core/default_decoder.c:95-107 | the skip never exceeds the number of buffered bytes |
| Alignment.CountSyncs | core/default_decoder.c:98-102 | the inner loop counts the run of sync bytes at the offset |
| Alignment.ChooseSkip | core/default_decoder.c:95-107 | the nested loops pick the skip of the reference scan |
| Alignment.GrowCapacity | core/default_decoder.c:82-84 | the new capacity is the old one doubled some number of times, holds the needed bytes, and is below twice them unless unchanged |
| Alignment.WholePackets | core/default_decoder.c:111-112 | the emitted length is a multiple of 188, at most the available bytes, and leaves under 188 |
| Alignment.CutAt | core/default_decoder.c:111-114 | cutting at an offset emits a multiple of 188 bytes and keeps under 188, and the bytes from the offset are exactly the emitted ones followed by the kept ones |
| Alignment.Align | core/default_decoder.c:95-114 | one call emits a multiple of 188 bytes and carries fewer than 188 over |
| Alignment.AlignIsBestCut | core/default_decoder.c:95-114 | one call cuts at the offset the scan picks |
| Alignment.AlignAccounts | core/default_decoder.c:108-114 | skip + emitted + carried equals the buffered bytes, the skip is below 188, and the emitted and carried bytes are the buffer from the skip on, in order |
| Alignment.AlignSkipIsBest | core/default_decoder.c:95-107 | the skip is the lowest offset with the longest run, and any offset with that property is the skip |
| Alignment.AlignedStreamNotSkipped | core/default_decoder.c:95-114 | a stream already aligned on packet boundaries is not skipped into, and its whole packets are emitted from byte 0 |
| Alignment.NoSyncNoSkip | core/default_decoder.c:95-107 | with no 0x47 byte anywhere the skip is 0 |
| Alignment.ResyncAfterGarbage | core/default_decoder.c:95-113 | when offset n (below 188) is the first with four sync bytes at stride 188, the skip is n and the output starts with a sync byte |
| Alignment.CutBuffer | core/default_decoder.c:111-114 | the bytes from the chosen offset are the emitted packets (a multiple of 188 bytes) followed by the kept tail (under 188 bytes), skip + emitted + kept is the buffered length, and the cut is the reference cut at that offset |
| Alignment.AlignmentFilter.Remainder | core/default_decoder.c:114 | the carried-over bytes number fewer than 188 |
| Alignment.AlignmentFilter.constructor | core/default_decoder.c:57-64 | a new filter has capacity 188 * 1024, no bytes, no remainder and skip 0 |
| Alignment.AlignmentFilter.Refill | core/default_decoder.c:76-92 | the buffer becomes the old remainder followed by the input; the capacity is unchanged when they fit, and otherwise becomes a doubling of it that holds them and is below twice their length |
| Alignment.AlignmentFilter.Cut | core/default_decoder.c:95-114 | the skip, the output and the new remainder are those of Align on the buffered bytes |
| Alignment.AlignmentFilter.Feed | core/default_decoder.c:71-115 | one call of ts_alignment_filter: the buffer is the old remainder plus the input, the capacity only doubles, and skip, output and remainder are those of Align |
| Alignment.DefaultDecoder.constructor | core/default_decoder.c:120-121 | the decoder starts with init_filter off and no filter |
| Alignment.DefaultDecoder.Decode | core/default_decoder.c:118-128 | the filter is created on the first call only and kept after that; the output and the bytes carried to the next call are those of Align on the carried bytes (none on the first call) followed by the input |
| Options.Classify | tsfilter.c:271-294 | the first prefix the argument starts with (event_id=, if=, of=, in that order) decides its branch; an argument takes the PID branch iff it has none of the prefixes and is none of pmt, pat and --nosync |
| Options.WordsHaveNoPrefix | tsfilter.c:271-292 | none of pmt, pat and --nosync starts with event_id=, if= or of= |
| Options.ClassifyWords | tsfilter.c:286-293 | an argument takes the pmt, pat or --nosync branch iff it is exactly that word |
| Options.ApplyArg | tsfilter.c:270-304 | one argument never switches filtering off, adds at most one PID, keeps the PIDs already stored, and keeps the options well formed |
| Options.HandleArg | tsfilter.c:270-304 | the if-chain of the loop body performs ApplyArg |
| Options.ParseArgs | tsfilter.c:269-305 | the loop over argv[1..] applies the arguments in order to the initial globals |
| Options.ParsedWellFormed | tsfilter.c:269-305 | after any arguments there are at most 256 PIDs, each in 0..4096, the event id is -1 or in [0, 65536), and filtering is on whenever a PID, pat, pmt or an event id is in force |
| Options.PmtArgSetsAddPat | tsfilter.c:286-288 | add_pat ends up on iff "pmt" is among the arguments |
| Options.PatArgSetsAddPmt | tsfilter.c:289-291 | add_pmt ends up on iff "pat" is among the arguments |
| Options.NoSyncTurnsAlignmentOff | tsfilter.c:292-293 | alignment ends up off iff "--nosync" is among the arguments |
| Options.LastOf | tsfilter.c:269-305 | the argument found is one of the arguments and of the kind; there is none iff no argument is of that kind |
| Options.LastOfIsLast | tsfilter.c:269-305 | the argument LastOf finds is followed by no argument of its kind, so it is the last one, the one whose assignment survives the loop |
| Options.PidAboveLimitIgnored | tsfilter.c:295-300 | a PID argument in 4097..0x1FFF leaves the configuration unchanged, so it is neither stored nor switches filtering on |
| Options.PidsFromArgs | tsfilter.c:295-303 | filter_pids holds the first 256 in-range PID arguments, in order |
| Options.LastEventIdWins | tsfilter.c:271-279 | the event id is that of the last event_id= argument when in range, else -1 |
| Options.LastInFileWins | tsfilter.c:280-282 | the input file is named by the last if= argument |
| Options.LastOutFileWins | tsfilter.c:283-285 | the output file is named by the last of= argument |
| Options.FilterSwitchedOn | tsfilter.c:269-305 | set_filter ends up on iff some argument is pmt, pat, an in-range event id or an in-range PID |
| Services.Register | tsfilter.c:78-86 | pat_handler's effect on the PMT table: an accepted item adds exactly one slot, for its PID in state INIT, after the kept earlier slots; a refused item adds none; the table never grows past 32 |
| Services.RegisterAllFillsFreeSlots | tsfilter.c:78-87 | the items of a PAT fill the free slots with their PMT PIDs in order, skipping program 0 and dropping what does not fit in 32 slots |
| Services.ParseSet.constructor | tsfilter.c:111-126 | the PAT parser on PID 0 and the EIT parsers on 0x12, 0x26 and 0x27 start in INIT, no service is registered, every program record is initialised, and both tables are new arrays |
| Services.ParseSet.PatHandler | tsfilter.c:72-88 | a full table or program 0 changes nothing; otherwise one service is appended, with its PMT state INIT on the item's PID and its record stored from the PAT item, and earlier slots are kept |
| Services.FindFrom | tsfilter.c:94-99 | the search from slot i finds the first matching record from i on, or none iff none matches |
| Services.FindCurrService | tsfilter.c:90-100 | the index found is that of the first registered record with the service id; none iff no record has it |
| Services.FindCurrServiceEit | tsfilter.c:102-109 | an EIT section other than 0 finds nothing; section 0 finds what find_curr_service finds for the EIT's service id (the first registered record with it) |
| Services.FirstOfDuplicatesWins | tsfilter.c:94-98 | of two records with the same service id, the lookup finds the earlier one |
| Services.IsPat | tsfilter.c:128-131 | a PID carries the PAT iff it is 0, the PAT's PID |
| Services.PmtAmong | tsfilter.c:136-141 | the loop over the first k slots finds the PID iff one of them carries it |
| Services.IsPmt | tsfilter.c:133-142 | a PID is a PMT PID iff some registered service's PMT is on it |
| Services.RegisterMakesPmt | tsfilter.c:82-84 | registering a program makes its PID a PMT PID and keeps the old ones; a refused item changes no answer |
| PacketFilter.EventAmong | tsfilter.c:154-160 | the loop over the first k records finds the event iff one of them has event information and that event id |
| PacketFilter.CurrEvent | tsfilter.c:153-160 | the wanted event is on air iff some registered record has event information and that event id |
| PacketFilter.PidAmong | tsfilter.c:167-171 | the loop over the first k PIDs finds the PID iff it is among them |
| PacketFilter.Filter | tsfilter.c:144-194 | a packet passes iff filtering is off, or the event test (when an id above 0 is set) passes and then either its PID is listed, is 0 with add_pat, or is a registered PMT PID with add_pmt, or, with none of those options, an event id above 0 is set |
| PacketFilter.NoOptionPassesAll | tsfilter.c:149-151 | when no argument switches filtering on, every packet passes |
| PacketFilter.EventMissRejects | tsfilter.c:153-164 | while the wanted event is not on air in any registered service, no packet passes |
| PacketFilter.NoEventNoPidRejects | tsfilter.c:153-193 | with filtering on, no event id above 0 and no PID list, pat or pmt option, no packet passes |
| PacketFilter.EventIdZeroRejectsAll | tsfilter.c:153-193 | event_id=0 alone switches filtering on with id 0, and then no packet passes |
| PacketFilter.RouteOf | tsfilter.c:236-247 | an unparsed or scrambled packet feeds no parser; otherwise it feeds the PAT parser while no service is registered, and the PMT and EIT parsers after |
| PacketFilter.Written | tsfilter.c:230-251 | with filtering off every packet is written, including those whose header does not parse; with filtering on, an unparsed packet is dropped and a parsed one is written iff filter passes its PID |
| PacketFilter.PatOptionSelectsPmts | tsfilter.c:182-193 | with only add_pmt in force a packet is written iff it is on a registered PMT PID |
| PacketFilter.PmtOptionSelectsPat | tsfilter.c:175-193 | with only add_pat in force a packet passes iff it is on PID 0 |

## Left out

- File and stream I/O of tsfilter are not modelled: `fread`, `fwrite`, `fopen`, binary mode on stdin and stdout, and the `gettime` progress line. The same goes for the read loop of `main_loop` around the per-packet decision, and the `in`/`out` statistics. The model states which packets are written, not the writing.
- The skip warning of `default_decoder` and the "Invalid event id" and "Invalid PID" messages are diagnostics only. They are not modelled.
- `malloc`, `free`, `memcpy` and `memmove` are not modelled, nor is the unchecked allocation failure. The buffer is a sequence with a capacity field.
- `parse_ts_header`, `parse_PAT`, `parse_PMT`, `parse_EIT`, `store_PAT`, `init_proginfo` and `tsd_atoi` are not part of this model. They are parameters or inputs, as listed above. `tsd_strncmp` and `tsd_strcmp` are modelled by the prefix test and string equality on `seq<char>`, with no wide-character encoding.
- Which services the section parsers register or update is not modelled.
- PacketFilter.Written: this function takes the registry as the parsers left it after the packet, because their effect is not modelled.
- The section assembler, the table decoders, CRC checking and the PCR/TOT timestamp and MJD functions are not modelled. For the section assembler's state type `PSI_parse_t` and the timestamp and MJD functions, only types and prototypes appear in `utils/arib_proginfo.h` (lines 34-51 and 183-189). The table decoders and CRC checking are declared in headers that are not part of this model (`utils/arib_parser.h`, `utils/ts_parser.h`). No behaviour of any of them is available to model.
- The ARIB text buffers and platform switches are not modelled. `network_PID` of the parse set is never read by the filter and is left out.
- The PMT slots that no service uses hold unspecified data in the source. `Services.ParseSet.constructor` fills them with a placeholder that is never read.
- Continuity.PacketCounter.Count: the 64-bit counters are unbounded integers, so their wrap-around after 2^63 packets is not modelled.
- Alignment.AlignmentFilter.Refill: the capacity is an unbounded integer, so the overflow of the `int` doubling for inputs near 2^31 bytes is not modelled.
- Alignment.DefaultDecoder.Decode: the static filter is a field of an object, so one decoder per object stands for the process-wide one.
- `delete_ts_alignment_filter` only frees memory and is not modelled.
