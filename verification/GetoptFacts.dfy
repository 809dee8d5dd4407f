/** What a run of getopt takes, what it skips, and when it stays inside argv. */
module GetoptFacts {
  import opened Wrappers
  import opened GetoptScan

  /** The text is read as a short option, not as a long one. */
  predicate ReadsShort(cfg: Config, shorts: string, args: seq<string>, rest: string)
    requires Reading(args, rest) && rest != ""
  {
    TriesLong(cfg, shorts, args[0]) ==>
      && MatchLong(cfg.longopts.value, rest[..NameLength(rest)], cfg.longOnly).NoMatch?
      && cfg.longOnly && args[0][1] != '-' && StrChr(shorts, rest[0]).Some?
  }

  /** The operand of -W stands in the last element, and abbreviates two long options. */
  predicate LastWordAmbiguous(cfg: Config, shorts: string, args: seq<string>, rest: string)
    requires Reading(args, rest) && rest != "" && (LongForm(shorts) ==> cfg.longopts.Some?)
  {
    && LongForm(shorts) && rest[0] == 'W' && ReadsShort(cfg, shorts, args, rest)
    && |args| == (if |rest| > 1 then 1 else 2)
    && var word := if |rest| > 1 then rest[1..] else args[1];
       MatchLong(cfg.longopts.value, word[..NameLength(word)], true).Ambiguous?
  }

  /** The one case in which a call leaves optind beyond the end of argv. */
  lemma TakeStaysInside(cfg: Config, shorts: string, args: seq<string>, rest: string)
    requires Reading(args, rest) && rest != "" && (LongForm(shorts) ==> cfg.longopts.Some?)
    ensures Take(cfg, shorts, args, rest).used > |args| <==> LastWordAmbiguous(cfg, shorts, args, rest)
  {
    hide MatchLong, NameLength, StrChr, TakeLong;
  }

  /** A call comes to an ambiguous last word. */
  predicate CallAmbiguous(cfg: Config, first: bool, args: seq<string>, rest: string)
    requires Usable(cfg) && Reading(args, rest)
  {
    LongFormKept(cfg, first);
    var shorts, j := Shorts(cfg, first), Skipped(Mode(cfg), args);
    if rest != "" then LastWordAmbiguous(cfg, shorts, args, rest)
    else
      && j < |args| && !Nonoption(args[j]) && args[j] != "--"
      && LastWordAmbiguous(cfg, shorts, args[j..], Opened(cfg, args[j]))
  }

  /** A call leaves optind beyond the end of argv exactly if it comes to one. */
  lemma NextStaysInside(cfg: Config, first: bool, args: seq<string>, rest: string)
    requires Usable(cfg) && Reading(args, rest)
    ensures GetoptScan.Next(cfg, first, args, rest).used > |args| <==> CallAmbiguous(cfg, first, args, rest)
  {
    hide Take, LastWordAmbiguous;
    LongFormKept(cfg, first);
    var shorts, j := Shorts(cfg, first), Skipped(Mode(cfg), args);
    if rest != "" {
      assert args[0..] == args;
      TakeStaysInside(cfg, shorts, args, rest);
    } else if j < |args| && !Nonoption(args[j]) && args[j] != "--" {
      TakeStaysInside(cfg, shorts, args[j..], Opened(cfg, args[j]));
    }
  }

  /** What is left for the next call. */
  datatype State = State(first: bool, args: seq<string>, rest: string)

  /** The state after n calls, if none of them ends the run or leaves argv. */
  function After(cfg: Config, s: State, n: nat): (r: Option<State>)
    requires Usable(cfg) && Reading(s.args, s.rest)
    ensures r.Some? ==> Reading(r.value.args, r.value.rest)
    decreases n
  {
    if n == 0 then Some(s)
    else
      var t := GetoptScan.Next(cfg, s.first, s.args, s.rest);
      if t.event.code.End? || t.used > |s.args| then None
      else After(cfg, State(false, s.args[t.used..], t.rest), n - 1)
  }

  /** After n calls the next one comes to an ambiguous last word. */
  predicate ReachesAmbiguous(cfg: Config, s: State, n: nat)
    requires Usable(cfg) && Reading(s.args, s.rest)
  {
    var t := After(cfg, s, n);
    t.Some? && CallAmbiguous(cfg, t.value.first, t.value.args, t.value.rest)
  }

  /** A run leaves argv exactly if it comes to an ambiguous last word. */
  lemma {:induction false} RunStaysInside(cfg: Config, first: bool, args: seq<string>, rest: string)
    requires Usable(cfg) && Reading(args, rest)
    ensures RunFrom(cfg, first, args, rest).overrun
            <==> exists n: nat :: ReachesAmbiguous(cfg, State(first, args, rest), n)
    decreases |args|, Measure(args, rest)
  {
    hide GetoptScan.Next, CallAmbiguous;
    var s, t := GetoptScan.Next(cfg, first, args, rest), State(first, args, rest);
    NextStaysInside(cfg, first, args, rest);
    assert ReachesAmbiguous(cfg, t, 0) <==> CallAmbiguous(cfg, first, args, rest);
    if !s.event.code.End? && s.used <= |args| {
      var left := State(false, args[s.used..], s.rest);
      RunStaysInside(cfg, false, left.args, left.rest);
      forall n: nat
        ensures ReachesAmbiguous(cfg, t, n + 1) <==> ReachesAmbiguous(cfg, left, n)
      {
      }
      if n: nat :| ReachesAmbiguous(cfg, t, n) {
        assert ReachesAmbiguous(cfg, left, n - 1);
      }
      if n: nat :| ReachesAmbiguous(cfg, left, n) {
        assert ReachesAmbiguous(cfg, t, n + 1);
      }
    }
  }

  /** Without `W;` in optstring every run ends inside argv. */
  lemma NoLongFormStaysInside(cfg: Config, first: bool, args: seq<string>, rest: string)
    requires Usable(cfg) && Reading(args, rest) && !LongForm(cfg.optstring)
    ensures !RunFrom(cfg, first, args, rest).overrun
  {
    RunStaysInside(cfg, first, args, rest);
    forall n: nat
      ensures !ReachesAmbiguous(cfg, State(first, args, rest), n)
    {
      var t := After(cfg, State(first, args, rest), n);
      if t.Some? {
        LongFormKept(cfg, t.value.first);
      }
    }
  }

  /** `-Wfo` with options foo and fob: the call steps over an element that is not there. */
  lemma AmbiguousWordRunsPast()
    ensures var foo, fob := LongOption("foo", 0, None, 1), LongOption("fob", 0, None, 2);
            RunFrom(Config("W;", Some([foo, fob]), false, false), true, ["-Wfo"], "").overrun
  {
    var foo, fob := LongOption("foo", 0, None, 1), LongOption("fob", 0, None, 2);
    var cfg := Config("W;", Some([foo, fob]), false, false);
    assert Opened(cfg, "-Wfo") == "Wfo";
    assert StrChr("W;", 'W') == Some("W;");
    assert NameLength("fo") == 2 by { assert "fo"[1..] == "o"; assert "o"[1..] == ""; }
    assert "fo"[..2] == "fo";
    var opts := [foo, fob];
    assert MatchLong(opts, "fo", true).Ambiguous? by {
      assert "fo" <= opts[0].name && "fo" <= opts[1].name;
      assert ExactIndex(opts, "fo") == 2 by { assert opts[1..] == [fob]; }
    }
    var args := ["-Wfo"];
    assert args[0..] == args;
    assert LastWordAmbiguous(cfg, "W;", args, "Wfo") by { assert "Wfo"[1..] == "fo"; }
    TakeStaysInside(cfg, "W;", args, "Wfo");
    assert Skipped(Permute, args) == 0;
    assert TakeFrom(cfg, "W;", args, "Wfo", 0).used > 1;
    assert GetoptScan.Next(cfg, true, args, "").used > 1;
  }

  /** Of the first n elements, those skipped are non-options, and a non-option taken follows a taken element. */
  ghost predicate Accounted(args: seq<string>, marks: seq<bool>, n: nat) {
    && n <= |args| && n <= |marks|
    && (forall k :: 0 <= k < n && !marks[k] ==> Nonoption(args[k]))
    && (forall k :: 0 <= k < n && marks[k] && Nonoption(args[k]) ==> k > 0 && marks[k - 1])
  }

  /** Marks of a permuting run over `args`, up to the element `--` that ends it (cut is past it). */
  ghost predicate Explained(args: seq<string>, marks: seq<bool>, cut: nat)
    requires |marks| == |args|
  {
    && Accounted(args, marks, cut)
    && (forall k :: cut <= k < |args| ==> !marks[k])
    && (cut < |args| ==> cut > 0 && marks[cut - 1] && args[cut - 1] == "--")
  }

  lemma ExplainedConcat(args: seq<string>, n: nat, m1: seq<bool>, m2: seq<bool>, cut: nat)
    requires n <= |args| && |m1| == n && |m2| == |args| - n
    requires Accounted(args, m1, n)
    requires Explained(args[n..], m2, cut)
    ensures Explained(args, m1 + m2, n + cut)
  {
    var m := m1 + m2;
    forall k | n <= k < n + cut
      ensures !m[k] ==> Nonoption(args[k])
      ensures m[k] && Nonoption(args[k]) ==> k > 0 && m[k - 1]
    {
      assert m[k] == m2[k - n] && args[k] == args[n..][k - n];
      if k > n {
        assert m[k - 1] == m2[k - n - 1];
      }
    }
    forall k | n + cut <= k < |args|
      ensures !m[k]
    {
      assert m[k] == m2[k - n];
    }
    if n + cut < |args| {
      assert m[n + cut - 1] == m2[cut - 1] && args[n + cut - 1] == args[n..][cut - 1];
    }
  }

  lemma NextExplained(cfg: Config, first: bool, args: seq<string>, rest: string) returns (cut: nat)
    requires Usable(cfg) && Reading(args, rest) && Mode(cfg) == Permute
    ensures var s := GetoptScan.Next(cfg, first, args, rest);
            if s.event.code.End? then Explained(args, s.marks, cut)
            else s.used <= |args| ==> Accounted(args, s.marks, s.used)
  {
    hide Take, Accounted;
    LongFormKept(cfg, first);
    var s := GetoptScan.Next(cfg, first, args, rest);
    var j := Skipped(Permute, args);
    cut := if j < |args| then j + 1 else j;
    if s.event.code.End? {
      StopAccounted(args, j, s.marks);
    } else if s.used <= |args| {
      TakenAccounted(args, if rest == "" then j else 0, s.marks);
    }
  }

  /** Non-options passed over, then what was taken. */
  lemma TakenAccounted(args: seq<string>, j: nat, marks: seq<bool>)
    requires j < |args| && |marks| <= |args| && !Nonoption(args[j]) && forall k :: 0 <= k < j ==> Nonoption(args[k])
    requires forall k :: 0 <= k < |marks| ==> marks[k] == (k >= j)
    ensures Accounted(args, marks, |marks|)
  {
  }

  lemma StopAccounted(args: seq<string>, j: nat, marks: seq<bool>)
    requires j <= |args| == |marks| && forall k :: 0 <= k < j ==> Nonoption(args[k])
    requires j < |args| ==> args[j] == "--"
    requires forall k :: 0 <= k < |marks| ==> marks[k] == (k == j)
    ensures Accounted(args, marks, if j < |args| then j + 1 else j)
  {
  }

  /**
   In a permuting run that stays inside argv: what is skipped before the end
   mark is a non-option, a non-option is taken only as the operand of the taken
   element before it, and nothing behind the first free-standing `--` is taken.
   */
  lemma {:induction false} RunExplained(cfg: Config, first: bool, args: seq<string>, rest: string) returns (cut: nat)
    requires Usable(cfg) && Reading(args, rest) && Mode(cfg) == Permute
    requires !RunFrom(cfg, first, args, rest).overrun
    ensures Explained(args, RunFrom(cfg, first, args, rest).marks, cut)
    decreases |args|, Measure(args, rest)
  {
    hide GetoptScan.Next, Explained, Accounted;
    var s := GetoptScan.Next(cfg, first, args, rest);
    cut := NextExplained(cfg, first, args, rest);
    if !s.event.code.End? {
      var left := args[s.used..];
      var c := RunExplained(cfg, false, left, s.rest);
      ExplainedConcat(args, s.used, s.marks, RunFrom(cfg, false, left, s.rest).marks, c);
      cut := s.used + c;
    }
  }
}
