/** Whole runs of getopt, as RAT's main program makes them. */
module CommandLine {
  import opened Wrappers
  import opened GetoptScan
  import opened Getopt

  /** What the main program looks at after a call: the code and `optarg`. */
  datatype Seen = Seen(code: Code, optarg: Option<string>)

  function View(events: seq<Event>): (v: seq<Seen>)
    ensures |v| == |events|
  {
    if events == [] then [] else [Seen(events[0].code, events[0].optarg)] + View(events[1..])
  }

  /** d is about to scan `args`, having made `marks`; `first` if it has not been called yet. */
  ghost predicate At(d: GetoptData, cfg: Config, orig: seq<string>, first: bool, args: seq<string>, rest: string,
                     marks: seq<bool>)
    reads d, d.argv
  {
    && 1 <= |marks| == d.optind <= d.argv.Length == |orig| && Reading(args, rest)
    && args == d.argv[d.optind..] == orig[|marks|..]
    && if first then d.Fresh() && d.argv[..] == orig && rest == "" && marks == Marks(true, 1)
       else d.Running(cfg) && d.orig == orig && d.marks == marks && rest == d.Rest()
  }

  method GetoptLong(d: GetoptData, cfg: Config, ghost orig: seq<string>, ghost first: bool, ghost args: seq<string>,
                    ghost rest: string, ghost marks: seq<bool>) returns (code: Code)
    requires Usable(cfg) && At(d, cfg, orig, first, args, rest, marks)
    modifies d, d.argv
    ensures var s := GetoptScan.Next(cfg, first, args, rest);
            && code == s.event.code && d.optarg == s.event.optarg
            && if code == End then Sorted(d.argv[..], orig, marks + s.marks, d.optind)
               else if s.used > |args| then d.optind == d.argv.Length + 1 && multiset(d.argv[..]) == multiset(orig)
               else At(d, cfg, orig, false, args[s.used..], s.rest, marks + s.marks) && d.optind <= d.argv.Length
    ensures Mode(cfg) != Permute ==> d.argv[..] == old(d.argv[..])
  {
    hide Layout, Sorted, GetoptScan.Next, Selected, Rotated, Mode;
    ghost var s := GetoptScan.Next(cfg, first, args, rest);
    code := d.Next(cfg);
    if code != End && s.used <= |args| {
      LayoutBounds(d.argv[..], orig, d.marks, d.firstNonopt, d.lastNonopt);
      assert orig[d.optind..] == args[s.used..];
    }
  }

  /** Calls getopt until it returns -1 (or optind has left argv), collecting what it delivers. */
  method ParseCommandLine(argv: array<string>, cfg: Config) returns (d: GetoptData, seen: seq<Seen>)
    requires Usable(cfg) && argv.Length >= 1
    modifies argv
    ensures var r := RunFrom(cfg, true, old(argv[1..]), "");
            && seen == View(r.events)
            && (!r.overrun ==> Sorted(argv[..], old(argv[..]), [true] + r.marks, d.optind))
            && (r.overrun ==> d.optind == argv.Length + 1)
    ensures multiset(argv[..]) == multiset(old(argv[..]))
    ensures Mode(cfg) != Permute ==> argv[..] == old(argv[..])
  {
    hide Sorted, GetoptScan.Next, Selected, RunFrom, View, Measure, Mode, Owed;
    d := new GetoptData(argv);
    seen := [];
    ghost var orig, r := argv[..], RunFrom(cfg, true, argv[1..], "");
    ghost var args, rest, first, marks := argv[1..], "", true, Marks(true, 1);
    assert At(d, cfg, orig, first, args, rest, marks);
    OwedAtFirst(cfg, r, args);
    hide Reading, At;
    RunStep(cfg, r, first, seen, marks, args, rest);
    ghost var s := GetoptScan.Next(cfg, first, args, rest);
    var c := GetoptLong(d, cfg, orig, first, args, rest, marks);
    while c != End && d.optind <= argv.Length
      invariant d.argv == argv && fresh(d) && Reading(args, rest)
      invariant s == GetoptScan.Next(cfg, first, args, rest) && c == s.event.code && d.optarg == s.event.optarg
      invariant Owed(cfg, r, first, seen, marks, args, rest)
      invariant if c == End then Sorted(argv[..], orig, marks + s.marks, d.optind)
                else if s.used > |args| then d.optind == argv.Length + 1 && multiset(argv[..]) == multiset(orig)
                else At(d, cfg, orig, false, args[s.used..], s.rest, marks + s.marks) && d.optind <= argv.Length
      invariant Mode(cfg) != Permute ==> argv[..] == orig
      decreases |args|, Measure(args, rest)
    {
      RunStep(cfg, r, first, seen, marks, args, rest);
      seen := seen + [Seen(c, d.optarg)];
      args, rest, first, marks := args[s.used..], s.rest, false, marks + s.marks;
      s := GetoptScan.Next(cfg, first, args, rest);
      c := GetoptLong(d, cfg, orig, first, args, rest, marks);
    }
    RunStep(cfg, r, first, seen, marks, args, rest);
    if c == End {
      SortedKeeps(argv[..], orig, marks + s.marks, d.optind);
    } else {
      seen := seen + [Seen(c, d.optarg)];
    }
  }

  /** What is left of run r when `seen` has been delivered and `marks` made. */
  ghost predicate Owed(cfg: Config, r: Run, first: bool, seen: seq<Seen>, marks: seq<bool>, args: seq<string>,
                       rest: string)
    requires Usable(cfg) && Reading(args, rest)
  {
    var r0 := RunFrom(cfg, first, args, rest);
    seen + View(r0.events) == View(r.events) && marks + r0.marks == [true] + r.marks && r0.overrun == r.overrun
  }

  lemma OwedAtFirst(cfg: Config, r: Run, args: seq<string>)
    requires Usable(cfg) && r == RunFrom(cfg, true, args, "")
    ensures Owed(cfg, r, true, [], Marks(true, 1), args, "")
  {
    hide RunFrom;
    assert Marks(true, 1) == [true];
  }

  lemma RunStep(cfg: Config, r: Run, first: bool, seen: seq<Seen>, marks: seq<bool>, args: seq<string>, rest: string)
    requires Usable(cfg) && Reading(args, rest) && Owed(cfg, r, first, seen, marks, args, rest)
    ensures var s := GetoptScan.Next(cfg, first, args, rest);
            var now := seen + [Seen(s.event.code, s.event.optarg)];
            if s.event.code.End? then View(r.events) == seen && [true] + r.marks == marks + s.marks && !r.overrun
            else if s.used > |args| then View(r.events) == now && r.overrun
            else
              var left := args[s.used..];
              && Owed(cfg, r, false, now, marks + s.marks, left, s.rest)
              && (|left| < |args| || (|left| == |args| && Measure(left, s.rest) < Measure(args, rest)))
  {
    hide GetoptScan.Next;
    var s, r0 := GetoptScan.Next(cfg, first, args, rest), RunFrom(cfg, first, args, rest);
    if !s.event.code.End? && s.used <= |args| {
      var es := RunFrom(cfg, false, args[s.used..], s.rest).events;
      assert ([s.event] + es)[1..] == es;
    }
  }

  lemma SortedKeeps(argv: seq<string>, orig: seq<string>, marks: seq<bool>, boundary: int)
    requires Sorted(argv, orig, marks, boundary)
    ensures multiset(argv) == multiset(orig)
  {
    SelectedPermutes(orig, marks);
  }
}
