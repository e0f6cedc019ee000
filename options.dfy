/** The command-line options of tsfilter and the argument loop of main
    (tsfilter.c:36-42, 269-305). The option globals become one Config
    record; tsd_atoi is a parameter, since its body is not part of this model. */
module Options {
  import opened TsHeader

  /** set_filter, filter_event_id, filter_pids[0..n_filter_pids], add_pat,
      add_pmt, sync, in_file and out_file of tsfilter.c. */
  datatype Config = Config(
    setFilter: bool,
    filterEventId: int,
    filterPids: seq<int>,
    addPat: bool,
    addPmt: bool,
    sync: bool,
    inFile: Option<string>,
    outFile: Option<string>)

  /** The initial values of the globals and of main's locals. */
  const Defaults := Config(false, -1, [], false, false, true, None, None)

  /** Capacity of filter_pids. */
  const MaxFilterPids := 256
  /** event_id must lie below this bound. */
  const EventIdLimit := 65536
  /** The largest PID accepted on the command line. A PID has 13 bits
      (up to 0x1FFF), so PIDs 4097..8191 cannot be selected. */
  const MaxFilterPid := 4096

  const EventIdPrefix := "event_id="
  const InFilePrefix := "if="
  const OutFilePrefix := "of="

  /** The test tsd_strncmp(s, prefix, strlen(prefix)) == 0. */
  predicate StartsWith(s: string, prefix: string) {
    |prefix| <= |s| && s[..|prefix|] == prefix
  }

  /** None of the three option words begins with one of the three prefixes,
      so each reaches its own branch. */
  lemma WordsHaveNoPrefix()
    ensures forall w, p | w in ["pmt", "pat", "--nosync"] && p in [EventIdPrefix, InFilePrefix, OutFilePrefix] ::
              !StartsWith(w, p)
  {
    assert "pmt"[0] != "event_id="[0] && "pmt"[0] != "if="[0] && "pmt"[0] != "of="[0];
    assert "pat"[0] != "event_id="[0] && "pat"[0] != "if="[0] && "pat"[0] != "of="[0];
    assert "--nosync"[0] != "event_id="[0] && "--nosync"[0] != "if="[0] && "--nosync"[0] != "of="[0];
  }

  /** The branch of the argument loop an argument takes. */
  datatype ArgKind = EventIdArg | InFileArg | OutFileArg | PmtArg | PatArg | NoSyncArg | PidArg

  /** The tests of the argument loop, in their order: three prefixes, then
      three exact words; anything else is read as a PID. */
  function Classify(arg: string): (k: ArgKind)
    ensures k == EventIdArg <==> StartsWith(arg, EventIdPrefix)
    ensures k == InFileArg <==> !StartsWith(arg, EventIdPrefix) && StartsWith(arg, InFilePrefix)
    ensures k == OutFileArg <==> !StartsWith(arg, EventIdPrefix) && !StartsWith(arg, InFilePrefix) &&
                                 StartsWith(arg, OutFilePrefix)
    ensures k == PidArg <==> !StartsWith(arg, EventIdPrefix) && !StartsWith(arg, InFilePrefix) &&
                             !StartsWith(arg, OutFilePrefix) && arg != "pmt" && arg != "pat" &&
                             arg != "--nosync"
    ensures k == EventIdArg ==> |EventIdPrefix| <= |arg|
    ensures k == InFileArg ==> |InFilePrefix| <= |arg|
    ensures k == OutFileArg ==> |OutFilePrefix| <= |arg|
  {
    if StartsWith(arg, EventIdPrefix) then EventIdArg
    else if StartsWith(arg, InFilePrefix) then InFileArg
    else if StartsWith(arg, OutFilePrefix) then OutFileArg
    else if arg == "pmt" then PmtArg
    else if arg == "pat" then PatArg
    else if arg == "--nosync" then NoSyncArg
    else PidArg
  }

  /** Each option word reaches its own branch, and only it does. */
  lemma ClassifyWords(arg: string)
    ensures Classify(arg) == PmtArg <==> arg == "pmt"
    ensures Classify(arg) == PatArg <==> arg == "pat"
    ensures Classify(arg) == NoSyncArg <==> arg == "--nosync"
  {
    WordsHaveNoPrefix();
  }

  /** What the options promise whatever the arguments were: at most 256 PIDs,
      each in 0..4096, an event id that is -1 or a 16-bit value, and filtering
      switched on whenever a PID, pat/pmt or an event id is in force. */
  predicate WellFormed(c: Config) {
    |c.filterPids| <= MaxFilterPids &&
    (forall i :: 0 <= i < |c.filterPids| ==> 0 <= c.filterPids[i] <= MaxFilterPid) &&
    (c.filterEventId == -1 || 0 <= c.filterEventId < EventIdLimit) &&
    (|c.filterPids| > 0 || c.addPat || c.addPmt || c.filterEventId >= 0 ==> c.setFilter)
  }

  /** One iteration of the argument loop. An event id outside [0, 65536)
      resets the event id to -1 but leaves set_filter as it was; a PID
      argument is read only while fewer than 256 are stored and kept only
      if it lies in 0..4096. "pmt" sets add_pat and "pat" sets add_pmt. */
  function ApplyArg(c: Config, arg: string, atoi: string -> int): (r: Config)
    ensures c.setFilter ==> r.setFilter
    ensures |c.filterPids| <= |r.filterPids| <= |c.filterPids| + 1
    ensures r.filterPids[..|c.filterPids|] == c.filterPids
    ensures WellFormed(c) ==> WellFormed(r)
  {
    match Classify(arg)
    case EventIdArg =>
      var id := atoi(arg[|EventIdPrefix|..]);
      if 0 <= id < EventIdLimit then c.(filterEventId := id, setFilter := true)
      else c.(filterEventId := -1)
    case InFileArg => c.(inFile := Some(arg[|InFilePrefix|..]))
    case OutFileArg => c.(outFile := Some(arg[|OutFilePrefix|..]))
    case PmtArg => c.(addPat := true, setFilter := true)
    case PatArg => c.(addPmt := true, setFilter := true)
    case NoSyncArg => c.(sync := false)
    case PidArg =>
      if |c.filterPids| < MaxFilterPids then
        var pid := atoi(arg);
        if 0 <= pid <= MaxFilterPid then c.(filterPids := c.filterPids + [pid], setFilter := true)
        else c
      else c
  }

  /** A PID argument above 4096, though a valid 13-bit PID, is dropped
      and does not switch filtering on. */
  lemma PidAboveLimitIgnored(c: Config, arg: string, atoi: string -> int)
    requires Classify(arg) == PidArg && MaxFilterPid < atoi(arg) <= 0x1FFF
    ensures ApplyArg(c, arg, atoi) == c
  {
  }

  /** The arguments applied in order. */
  function ApplyArgs(c: Config, args: seq<string>, atoi: string -> int): Config
    decreases |args|
  {
    if args == [] then c
    else ApplyArg(ApplyArgs(c, args[..|args| - 1], atoi), args[|args| - 1], atoi)
  }

  /** The body of the argument loop of main: the tests in their order, each
      updating the options it names. */
  method HandleArg(c0: Config, arg: string, atoi: string -> int) returns (c: Config)
    ensures c == ApplyArg(c0, arg, atoi)
  {
    c := c0;
    if StartsWith(arg, EventIdPrefix) {
      var id := atoi(arg[|EventIdPrefix|..]);
      if 0 <= id < EventIdLimit {
        c := c.(filterEventId := id, setFilter := true);
      } else {
        c := c.(filterEventId := -1);
      }
    } else if StartsWith(arg, InFilePrefix) {
      c := c.(inFile := Some(arg[|InFilePrefix|..]));
    } else if StartsWith(arg, OutFilePrefix) {
      c := c.(outFile := Some(arg[|OutFilePrefix|..]));
    } else if arg == "pmt" {
      c := c.(addPat := true, setFilter := true);
    } else if arg == "pat" {
      c := c.(addPmt := true, setFilter := true);
    } else if arg == "--nosync" {
      c := c.(sync := false);
    } else if |c.filterPids| < MaxFilterPids {
      var pid := atoi(arg);
      if 0 <= pid <= MaxFilterPid {
        c := c.(filterPids := c.filterPids + [pid], setFilter := true);
      }
    }
  }

  /** The argument loop of main over argv; argv[0], the program name, is not read. */
  method ParseArgs(argv: seq<string>, atoi: string -> int) returns (c: Config)
    ensures c == ApplyArgs(Defaults, if argv == [] then [] else argv[1..], atoi)
  {
    ghost var args := if argv == [] then [] else argv[1..];
    c := Defaults;
    var i := 1;
    while i < |argv|
      invariant 1 <= i && |args| == if argv == [] then 0 else |argv| - 1
      invariant i <= |argv| ==> c == ApplyArgs(Defaults, args[..i - 1], atoi)
      invariant i > |argv| ==> argv == [] && c == Defaults
    {
      assert args[..i] == args[..i - 1] + [argv[i]];
      c := HandleArg(c, argv[i], atoi);
      i := i + 1;
    }
    assert args == args[..|args|];
  }

  /** Whatever the arguments, the parsed options are well formed. */
  lemma {:induction false} ParsedWellFormed(c: Config, args: seq<string>, atoi: string -> int)
    requires WellFormed(c)
    ensures WellFormed(ApplyArgs(c, args, atoi))
    decreases |args|
  {
    if args != [] {
      ParsedWellFormed(c, args[..|args| - 1], atoi);
    }
  }

  /** "pmt" turns on add_pat, as written: add_pat is set iff "pmt" is among
      the arguments. */
  lemma {:induction false} PmtArgSetsAddPat(args: seq<string>, atoi: string -> int)
    ensures ApplyArgs(Defaults, args, atoi).addPat <==> "pmt" in args
    decreases |args|
  {
    if args != [] {
      var init, last := args[..|args| - 1], args[|args| - 1];
      PmtArgSetsAddPat(init, atoi);
      ClassifyWords(last);
      assert args == init + [last];
    }
  }

  /** "pat" turns on add_pmt, as written: add_pmt is set iff "pat" is among
      the arguments. */
  lemma {:induction false} PatArgSetsAddPmt(args: seq<string>, atoi: string -> int)
    ensures ApplyArgs(Defaults, args, atoi).addPmt <==> "pat" in args
    decreases |args|
  {
    if args != [] {
      var init, last := args[..|args| - 1], args[|args| - 1];
      PatArgSetsAddPmt(init, atoi);
      ClassifyWords(last);
      assert args == init + [last];
    }
  }

  /** Alignment stays on unless "--nosync" is among the arguments. */
  lemma {:induction false} NoSyncTurnsAlignmentOff(args: seq<string>, atoi: string -> int)
    ensures !ApplyArgs(Defaults, args, atoi).sync <==> "--nosync" in args
    decreases |args|
  {
    if args != [] {
      var init, last := args[..|args| - 1], args[|args| - 1];
      NoSyncTurnsAlignmentOff(init, atoi);
      ClassifyWords(last);
      assert args == init + [last];
    }
  }

  /** The values of the PID arguments that lie in 0..4096, in order. */
  function PidArgs(args: seq<string>, atoi: string -> int): seq<int>
    decreases |args|
  {
    if args == [] then []
    else
      var last := args[|args| - 1];
      var pid := atoi(last);
      PidArgs(args[..|args| - 1], atoi) +
        (if Classify(last) == PidArg && 0 <= pid <= MaxFilterPid then [pid] else [])
  }

  /** filter_pids ends up holding the first 256 in-range PID arguments. */
  lemma {:induction false} PidsFromArgs(c: Config, args: seq<string>, atoi: string -> int)
    requires |c.filterPids| <= MaxFilterPids
    ensures ApplyArgs(c, args, atoi).filterPids == Prefix(c.filterPids + PidArgs(args, atoi), MaxFilterPids)
    decreases |args|
  {
    if args != [] {
      var init := args[..|args| - 1];
      PidsFromArgs(c, init, atoi);
      var s := c.filterPids + PidArgs(init, atoi);
      var last := args[|args| - 1];
      var pid := atoi(last);
      if Classify(last) == PidArg && 0 <= pid <= MaxFilterPid {
        assert c.filterPids + PidArgs(args, atoi) == s + [pid];
        if |s| >= MaxFilterPids {
          assert (s + [pid])[..MaxFilterPids] == s[..MaxFilterPids];
        }
      } else {
        assert c.filterPids + PidArgs(args, atoi) == s;
      }
    }
  }

  /** The last argument of the given kind, if any. */
  function LastOf(args: seq<string>, k: ArgKind): (r: Option<string>)
    ensures r.Some? ==> r.value in args && Classify(r.value) == k
    ensures r.None? <==> forall i :: 0 <= i < |args| ==> Classify(args[i]) != k
    decreases |args|
  {
    if args == [] then None
    else if Classify(args[|args| - 1]) == k then Some(args[|args| - 1])
    else LastOf(args[..|args| - 1], k)
  }

  /** LastOf finds the last argument of its kind: no later argument is of
      that kind. */
  lemma {:induction false} LastOfIsLast(args: seq<string>, k: ArgKind)
    ensures LastOf(args, k).Some? ==>
              exists i :: 0 <= i < |args| && args[i] == LastOf(args, k).value &&
                          forall j :: i < j < |args| ==> Classify(args[j]) != k
    decreases |args|
  {
    if args != [] {
      var n := |args| - 1;
      if Classify(args[n]) == k {
        assert args[n] == LastOf(args, k).value;
      } else {
        var init := args[..n];
        LastOfIsLast(init, k);
        if LastOf(init, k).Some? {
          var i :| 0 <= i < n && init[i] == LastOf(init, k).value &&
                   forall j :: i < j < n ==> Classify(init[j]) != k;
          forall j | i < j < |args|
            ensures Classify(args[j]) != k
          {
            if j < n {
              assert args[j] == init[j];
            }
          }
          assert args[i] == LastOf(args, k).value;
        }
      }
    }
  }

  /** The event id the last event_id= argument gives: its value when it lies
      in [0, 65536), else -1; -1 when there is none. */
  function EventIdOf(args: seq<string>, atoi: string -> int): int {
    match LastOf(args, EventIdArg)
    case None => -1
    case Some(a) =>
      var id := atoi(a[|EventIdPrefix|..]);
      if 0 <= id < EventIdLimit then id else -1
  }

  /** The file named by the last if= argument, if any. */
  function InFileOf(args: seq<string>): Option<string> {
    match LastOf(args, InFileArg)
    case None => None
    case Some(a) => Some(a[|InFilePrefix|..])
  }

  /** The file named by the last of= argument, if any. */
  function OutFileOf(args: seq<string>): Option<string> {
    match LastOf(args, OutFileArg)
    case None => None
    case Some(a) => Some(a[|OutFilePrefix|..])
  }

  /** A later event_id= argument overrides an earlier one, an out-of-range
      one clearing the id to -1. */
  lemma {:induction false} LastEventIdWins(args: seq<string>, atoi: string -> int)
    ensures ApplyArgs(Defaults, args, atoi).filterEventId == EventIdOf(args, atoi)
    decreases |args|
  {
    if args != [] {
      LastEventIdWins(args[..|args| - 1], atoi);
    }
  }

  /** The input file is named by the last if= argument. */
  lemma {:induction false} LastInFileWins(args: seq<string>, atoi: string -> int)
    ensures ApplyArgs(Defaults, args, atoi).inFile == InFileOf(args)
    decreases |args|
  {
    if args != [] {
      var init, last := args[..|args| - 1], args[|args| - 1];
      LastInFileWins(init, atoi);
      assert ApplyArgs(Defaults, args, atoi).inFile ==
             if Classify(last) == InFileArg then Some(last[|InFilePrefix|..])
             else ApplyArgs(Defaults, init, atoi).inFile;
    }
  }

  /** The output file is named by the last of= argument. */
  lemma {:induction false} LastOutFileWins(args: seq<string>, atoi: string -> int)
    ensures ApplyArgs(Defaults, args, atoi).outFile == OutFileOf(args)
    decreases |args|
  {
    if args != [] {
      var init, last := args[..|args| - 1], args[|args| - 1];
      LastOutFileWins(init, atoi);
      assert ApplyArgs(Defaults, args, atoi).outFile ==
             if Classify(last) == OutFileArg then Some(last[|OutFilePrefix|..])
             else ApplyArgs(Defaults, init, atoi).outFile;
    }
  }

  /** The arguments that turn filtering on: pmt, pat, an event id in range
      and a PID in range. */
  predicate EnablesFilter(arg: string, atoi: string -> int) {
    match Classify(arg)
    case PmtArg => true
    case PatArg => true
    case EventIdArg => 0 <= atoi(arg[|EventIdPrefix|..]) < EventIdLimit
    case PidArg => 0 <= atoi(arg) <= MaxFilterPid
    case _ => false
  }

  /** set_filter ends up on iff some argument turns it on. A PID argument met
      once the list is full does not, but by then an earlier one has. */
  lemma {:induction false} FilterSwitchedOn(args: seq<string>, atoi: string -> int)
    ensures ApplyArgs(Defaults, args, atoi).setFilter <==>
              exists a :: a in args && EnablesFilter(a, atoi)
    decreases |args|
  {
    if args != [] {
      var init := args[..|args| - 1];
      var last := args[|args| - 1];
      FilterSwitchedOn(init, atoi);
      ParsedWellFormed(Defaults, init, atoi);
      assert args == init + [last];
      assert forall w :: w in args <==> w in init || w == last;
      var c := ApplyArgs(Defaults, init, atoi);
      assert ApplyArgs(Defaults, args, atoi).setFilter == (c.setFilter || EnablesFilter(last, atoi)) by {
        assert Classify(last) == PidArg && |c.filterPids| >= MaxFilterPids ==> c.setFilter;
      }
      if c.setFilter {
        var a :| a in init && EnablesFilter(a, atoi);
        assert a in args;
      }
    }
  }
}
