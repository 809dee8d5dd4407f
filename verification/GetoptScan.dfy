/**
 The reference reading of a command line: one pass from left to right over an
 argument list that is never rearranged. `Getopt.GetoptData` works on the
 caller's argv in place, and is proved to deliver exactly these events.
 */
module GetoptScan {
  import opened Wrappers

  /** How options after non-options are treated. */
  datatype Ordering = RequireOrder | Permute | ReturnInOrder

  /** One row of the table of long options; `flag` names the caller's variable it sets. */
  datatype LongOption = LongOption(name: string, hasArg: int, flag: Option<nat>, val: int)

  /** The arguments that stay the same for all calls, and the environment's POSIXLY_CORRECT. */
  datatype Config = Config(optstring: string, longopts: Option<seq<LongOption>>,
                           longOnly: bool, posixlyCorrect: bool)

  /** What a call returns: -1, or the code of an option. */
  datatype Code = End | Ret(value: int)

  const QUESTION: Code := Ret('?' as int)
  const COLON: Code := Ret(':' as int)

  /** Everything the caller can see of a call; None means "left as it was" (for optarg, null). */
  datatype Event = Event(code: Code, optarg: Option<string>, optopt: Option<int>,
                         longind: Option<nat>, flag: Option<(nat, int)>)

  /** A call's event, the elements it used up and the text left of the current element. */
  datatype Taken = Taken(event: Event, used: nat, rest: string)

  /** As `Taken`, with one mark an element used: taken by the scan, or passed over. */
  datatype Scan = Scan(event: Event, marks: seq<bool>, used: nat, rest: string)

  datatype LongMatch = NoMatch | Ambiguous | Found(index: nat)

  predicate Nonoption(s: string) {
    |s| < 2 || s[0] != '-'
  }

  /** The order asked for by the first character of optstring or the environment. */
  function Mode(cfg: Config): Ordering {
    if cfg.optstring != "" && cfg.optstring[0] == '-' then ReturnInOrder
    else if cfg.optstring != "" && cfg.optstring[0] == '+' then RequireOrder
    else if cfg.posixlyCorrect then RequireOrder
    else Permute
  }

  /** Only the first call skips the ordering character; later calls see optstring whole. */
  function Shorts(cfg: Config, first: bool): string {
    if first && cfg.optstring != "" && cfg.optstring[0] in "-+" then cfg.optstring[1..] else cfg.optstring
  }

  /** The text of s from its first c on. */
  function StrChr(s: string, c: char): Option<string> {
    if s == "" then None else if s[0] == c then Some(s) else StrChr(s[1..], c)
  }

  /** The length of s up to '=' or its end. */
  function NameLength(s: string): (n: nat)
    ensures n <= |s|
    ensures '=' !in s[..n]
    ensures n < |s| ==> s[n] == '='
  {
    if s == "" || s[0] == '=' then 0 else 1 + NameLength(s[1..])
  }

  function ExactIndex(opts: seq<LongOption>, name: string): (k: nat)
    ensures k <= |opts|
    ensures forall j :: 0 <= j < k ==> opts[j].name != name
    ensures k < |opts| ==> opts[k].name == name
  {
    if opts == [] || opts[0].name == name then 0 else 1 + ExactIndex(opts[1..], name)
  }

  function PrefixIndex(opts: seq<LongOption>, name: string): (k: nat)
    ensures k <= |opts|
    ensures forall j :: 0 <= j < k ==> !(name <= opts[j].name)
    ensures k < |opts| ==> name <= opts[k].name
  {
    if opts == [] || name <= opts[0].name then 0 else 1 + PrefixIndex(opts[1..], name)
  }

  predicate SameEffect(a: LongOption, b: LongOption) {
    a.hasArg == b.hasArg && a.flag == b.flag && a.val == b.val
  }

  /** An exact name wins; an abbreviation must be unique, or (unless `strict`) have one effect. */
  function MatchLong(opts: seq<LongOption>, name: string, strict: bool): (m: LongMatch)
    ensures m.Found? ==> m.index < |opts| && name <= opts[m.index].name
  {
    var e, f := ExactIndex(opts, name), PrefixIndex(opts, name);
    if e < |opts| then Found(e)
    else if f == |opts| then NoMatch
    else if exists j :: f < j < |opts| && name <= opts[j].name && (strict || !SameEffect(opts[f], opts[j]))
      then Ambiguous
    else Found(f)
  }

  function Fail(code: Code, optarg: Option<string>, optopt: Option<int>): Event {
    Event(code, optarg, optopt, None, None)
  }

  function MissingCode(shorts: string): Code {
    if shorts != "" && shorts[0] == ':' then COLON else QUESTION
  }

  /**
   The long option `opts[k]`, whose name has been read; `tail` is "" or starts with '='.
   `args` are the elements after the name; `used` elements were taken before them.
   `operand` is what optarg holds already (the operand of -W).
   */
  function TakeLong(opts: seq<LongOption>, k: nat, tail: string, shorts: string, args: seq<string>,
                    used: nat, operand: Option<string>, viaW: bool): (t: Taken)
    requires k < |opts|
    ensures used <= t.used <= used + |args| && t.rest == "" && t.event.code.Ret?
  {
    var o := opts[k];
    var complain := if viaW then None else Some(o.val);
    var done := if o.flag.Some? then Ret(0) else Ret(o.val);
    var store := if o.flag.Some? then Some((o.flag.value, o.val)) else None;
    if tail != "" then
      if o.hasArg != 0 then Taken(Event(done, Some(tail[1..]), None, Some(k), store), used, "")
      else Taken(Fail(QUESTION, operand, complain), used, "")
    else if o.hasArg == 1 then
      if args != [] then Taken(Event(done, Some(args[0]), None, Some(k), store), used + 1, "")
      else Taken(Fail(MissingCode(shorts), operand, complain), used, "")
    else Taken(Event(done, operand, None, Some(k), store), used, "")
  }

  /** The operand of `-W` is a long option without its dashes. */
  function TakeW(cfg: Config, shorts: string, args: seq<string>, rest: string): (t: Taken)
    requires args != [] && cfg.longopts.Some?
    ensures 1 <= t.used <= |args| + 1 && t.rest == "" && t.event.code.Ret?
  {
    if rest == "" && |args| == 1 then
      Taken(Fail(MissingCode(shorts), None, Some('W' as int)), 1, "")
    else
      var word, used := if rest != "" then rest else args[1], if rest != "" then 1 else 2;
      var n := NameLength(word);
      match MatchLong(cfg.longopts.value, word[..n], true)
      case Ambiguous => Taken(Fail(QUESTION, Some(word), None), used + 1, "")
      case Found(k) => TakeLong(cfg.longopts.value, k, word[n..], shorts, args[used..], used, Some(word), true)
      case NoMatch => Taken(Fail(Ret('W' as int), Some(word), None), used, "")
  }

  /** Whether `-W foo` is to be read as `--foo`. */
  predicate LongForm(shorts: string) {
    var at := StrChr(shorts, 'W');
    at.Some? && |at.value| > 1 && at.value[1] == ';'
  }

  /** With `W;` in optstring the scan looks into the table of long options, so there must be one. */
  predicate Usable(cfg: Config) {
    LongForm(cfg.optstring) ==> cfg.longopts.Some?
  }

  lemma LongFormKept(cfg: Config, first: bool)
    ensures LongForm(Shorts(cfg, first)) == LongForm(cfg.optstring)
  {
  }

  /** The next short option character. */
  function TakeShort(cfg: Config, shorts: string, args: seq<string>, rest: string): (t: Taken)
    requires args != [] && rest != ""
    requires LongForm(shorts) ==> cfg.longopts.Some?
    ensures t.used <= |args| + 1 && t.event.code.Ret?
    ensures t.used == 0 ==> t.rest != "" && |t.rest| < |rest|
    ensures t.used > 0 ==> t.rest == ""
  {
    var c, more := rest[0], rest[1..];
    var at := StrChr(shorts, c);
    var here := if more == "" then 1 else 0;
    if at.None? || c == ':' then Taken(Fail(QUESTION, None, Some(c as int)), here, more)
    else if c == 'W' && LongForm(shorts) then TakeW(cfg, shorts, args, more)
    else if |at.value| > 1 && at.value[1] == ':' then
      if more != "" then Taken(Event(Ret(c as int), Some(more), None, None, None), 1, "")
      else if |at.value| > 2 && at.value[2] == ':' then Taken(Event(Ret(c as int), None, None, None, None), 1, "")
      else if |args| == 1 then Taken(Fail(MissingCode(shorts), None, Some(c as int)), 1, "")
      else Taken(Event(Ret(c as int), Some(args[1]), None, None, None), 2, "")
    else Taken(Event(Ret(c as int), None, None, None, None), here, more)
  }

  /** Whether the rest of option element s is tried as the name of a long option. */
  predicate TriesLong(cfg: Config, shorts: string, s: string)
    requires !Nonoption(s)
  {
    cfg.longopts.Some? && (s[1] == '-' || (cfg.longOnly && (|s| > 2 || StrChr(shorts, s[1]).None?)))
  }

  /** Decodes the next option of element args[0], of which `rest` is still to be read. */
  function Take(cfg: Config, shorts: string, args: seq<string>, rest: string): (t: Taken)
    requires args != [] && !Nonoption(args[0]) && rest != ""
    requires LongForm(shorts) ==> cfg.longopts.Some?
    ensures t.used <= |args| + 1 && t.event.code.Ret?
    ensures t.used == 0 ==> t.rest != "" && |t.rest| < |rest|
    ensures t.used > 0 ==> t.rest == ""
  {
    if TriesLong(cfg, shorts, args[0]) then
      var n := NameLength(rest);
      match MatchLong(cfg.longopts.value, rest[..n], cfg.longOnly)
      case Ambiguous => Taken(Fail(QUESTION, None, Some(0)), 1, "")
      case Found(k) => TakeLong(cfg.longopts.value, k, rest[n..], shorts, args[1..], 1, None, false)
      case NoMatch =>
        if !cfg.longOnly || args[0][1] == '-' || StrChr(shorts, rest[0]).None?
        then Taken(Fail(QUESTION, None, Some(0)), 1, "")
        else TakeShort(cfg, shorts, args, rest)
    else TakeShort(cfg, shorts, args, rest)
  }

  /** The text of an option element after its dashes. */
  function Opened(cfg: Config, s: string): (rest: string)
    requires !Nonoption(s) && s != "--"
    ensures rest != "" && |rest| < |s|
  {
    if cfg.longopts.Some? && s[1] == '-' then s[2..] else s[1..]
  }

  function Marks(b: bool, n: nat): (m: seq<bool>)
    ensures |m| == n && forall i :: 0 <= i < n ==> m[i] == b
  {
    seq(n, i => b)
  }

  /** How many elements at the front of args are passed over. */
  function Skipped(mode: Ordering, args: seq<string>): (n: nat)
    ensures n <= |args|
    ensures forall i :: 0 <= i < n ==> Nonoption(args[i])
    ensures mode == Permute && n < |args| ==> !Nonoption(args[n])
    ensures mode != Permute ==> n == 0
  {
    if mode == Permute && args != [] && Nonoption(args[0]) then 1 + Skipped(mode, args[1..]) else 0
  }

  predicate Reading(args: seq<string>, rest: string) {
    rest != "" ==> args != [] && !Nonoption(args[0]) && |rest| < |args[0]|
  }

  /** The marks of a call that passed over `passed` elements and then took t. */
  function Counted(passed: nat, left: nat, t: Taken): (s: Scan)
    ensures s.event == t.event && s.used == passed + t.used && s.rest == t.rest
    ensures |s.marks| == if t.used <= left then s.used else passed + left
  {
    Scan(t.event, Marks(false, passed) + Marks(true, if t.used <= left then t.used else left), passed + t.used, t.rest)
  }

  function TakeFrom(cfg: Config, shorts: string, args: seq<string>, rest: string, passed: nat): (s: Scan)
    requires LongForm(shorts) ==> cfg.longopts.Some?
    requires passed < |args| && !Nonoption(args[passed]) && rest != "" && |rest| < |args[passed]|
    ensures !s.event.code.End?
    ensures s.used <= |args| + 1
    ensures |s.marks| == if s.used <= |args| then s.used else |args|
    ensures s.used <= |args| ==> Reading(args[s.used..], s.rest)
    ensures s.used == 0 ==> s.rest != "" && |s.rest| < |rest|
  {
    var t := Take(cfg, shorts, args[passed..], rest);
    var s := Counted(passed, |args| - passed, t);
    assert t.used == 0 ==> args[s.used..][0] == args[passed];
    s
  }

  /** The end of the scan: the first `taken` elements left are taken, the others passed over. */
  function Stop(passed: nat, taken: nat, left: nat): (s: Scan)
    ensures s.event.code.End? && s.used == |s.marks| == passed + taken + left && s.rest == ""
  {
    Scan(Fail(End, None, None), Marks(false, passed) + Marks(true, taken) + Marks(false, left),
         passed + taken + left, "")
  }

  /** One call. `args` is what has not been used up and `rest` what is left of args[0]. */
  function Next(cfg: Config, first: bool, args: seq<string>, rest: string): (s: Scan)
    requires Usable(cfg) && Reading(args, rest)
    ensures s.used <= |args| + 1
    ensures s.event.code.End? ==> s.used == |args| && s.rest == ""
    ensures |s.marks| == if s.used <= |args| then s.used else |args|
    ensures s.used <= |args| ==> Reading(args[s.used..], s.rest)
    ensures !s.event.code.End? && s.used == 0 ==> s.rest != "" && (rest != "" ==> |s.rest| < |rest|)
  {
    LongFormKept(cfg, first);
    var shorts, mode := Shorts(cfg, first), Mode(cfg);
    var j := Skipped(mode, args);
    if rest != "" then TakeFrom(cfg, shorts, args, rest, 0)
    else if j == |args| then Stop(j, 0, 0)
    else if args[j] == "--" then Stop(j, 1, |args| - j - 1)
    else if !Nonoption(args[j]) then TakeFrom(cfg, shorts, args, Opened(cfg, args[j]), j)
    else if mode == RequireOrder then Stop(j, 0, |args|)
    else Scan(Event(Ret(1), Some(args[0]), None, None, None), Marks(true, 1), 1, "")
  }

  /** A whole run: its events, the marks of all elements, and whether it ran past the last one. */
  datatype Run = Run(events: seq<Event>, marks: seq<bool>, overrun: bool)

  function Measure(args: seq<string>, rest: string): nat {
    if rest != "" then |rest| else if args != [] then |args[0]| else 0
  }

  function RunFrom(cfg: Config, first: bool, args: seq<string>, rest: string): (r: Run)
    requires Usable(cfg) && Reading(args, rest)
    ensures |r.marks| == |args|
    decreases |args|, Measure(args, rest)
  {
    var s := Next(cfg, first, args, rest);
    if s.event.code.End? then Run([], s.marks, false)
    else if s.used > |args| then Run([s.event], s.marks, true)
    else
      var r := RunFrom(cfg, false, args[s.used..], s.rest);
      Run([s.event] + r.events, s.marks + r.marks, r.overrun)
  }
}
