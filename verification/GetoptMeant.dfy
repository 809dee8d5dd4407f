/**
 What a command line means: options and operands written down as arguments are
 read back by the scan as what they were.
 */
module GetoptMeant {
  import opened Wrappers
  import opened GetoptScan

  // ------------------------------------------------------- what a name means

  /** Option k is the first that has the name, or the name abbreviates it and nothing else. */
  predicate Means(opts: seq<LongOption>, name: string, strict: bool, k: nat) {
    && k < |opts|
    && if exists j :: 0 <= j < |opts| && opts[j].name == name
       then opts[k].name == name && forall j :: 0 <= j < k ==> opts[j].name != name
       else
         && name <= opts[k].name && (forall j :: 0 <= j < k ==> !(name <= opts[j].name))
         && forall j :: 0 <= j < |opts| && name <= opts[j].name && j != k ==> !strict && Alike(opts[k], opts[j])
  }

  /** Two rows of the table that differ in nothing but the name. */
  predicate Alike(a: LongOption, b: LongOption) {
    a == b.(name := a.name)
  }

  /** No option has the name, and two that it begins differ. */
  predicate Divided(opts: seq<LongOption>, name: string, strict: bool) {
    && (forall j :: 0 <= j < |opts| ==> opts[j].name != name)
    && exists i, j :: 0 <= i < j < |opts| && name <= opts[i].name && name <= opts[j].name
                      && (strict || !Alike(opts[i], opts[j]))
  }

  /** The name begins no option. */
  predicate Unheard(opts: seq<LongOption>, name: string) {
    forall j :: 0 <= j < |opts| ==> !(name <= opts[j].name)
  }

  lemma MatchIs(opts: seq<LongOption>, name: string, strict: bool)
    ensures match MatchLong(opts, name, strict)
            case Found(k) => Means(opts, name, strict, k)
            case Ambiguous => Divided(opts, name, strict)
            case NoMatch => Unheard(opts, name)
  {
    var e, f := ExactIndex(opts, name), PrefixIndex(opts, name);
    if e < |opts| {
      assert opts[e].name == name;
    } else {
      assert forall j :: 0 <= j < |opts| ==> opts[j].name != name;
      assert forall j :: 0 <= j < |opts| && f < |opts| ==> (SameEffect(opts[f], opts[j]) <==> Alike(opts[f], opts[j]));
    }
  }

  lemma OneMeaning(opts: seq<LongOption>, name: string, strict: bool, k: nat)
    requires Means(opts, name, strict, k)
    ensures forall j :: Means(opts, name, strict, j) ==> j == k
    ensures !Divided(opts, name, strict) && !Unheard(opts, name)
  {
    if j :| 0 <= j < |opts| && opts[j].name == name {
      assert name <= opts[k].name;
    }
  }

  lemma DividedIsHeard(opts: seq<LongOption>, name: string, strict: bool)
    requires Divided(opts, name, strict)
    ensures !Unheard(opts, name)
  {
  }

  /** Every name means one option, or is divided, or unheard of. */
  lemma MatchMeans(opts: seq<LongOption>, name: string, strict: bool)
    ensures forall k :: Means(opts, name, strict, k) <==> MatchLong(opts, name, strict) == Found(k)
    ensures Divided(opts, name, strict) <==> MatchLong(opts, name, strict).Ambiguous?
    ensures Unheard(opts, name) <==> MatchLong(opts, name, strict).NoMatch?
  {
    MatchIs(opts, name, strict);
    hide Means, Divided, Unheard, MatchLong;
    if Divided(opts, name, strict) {
      DividedIsHeard(opts, name, strict);
    }
    if k :| Means(opts, name, strict, k) {
      OneMeaning(opts, name, strict, k);
    }
  }

  // ------------------------------------------------------------------- items

  /** What a user may write, in one or two arguments. */
  datatype Item =
    | Flags(flags: string)                                          // -abc
    | Joined(flags: string, c: char, arg: string)                   // -abcARG
    | Separate(flags: string, c: char, arg: string)                 // -abc ARG
    | Bare(flags: string, c: char)                                  // -abc, without its optional argument
    | Long(k: nat, dashes: string, name: string, tail: string)      // --name, --name=ARG
    | LongSeparate(k: nat, dashes: string, name: string, arg: string)  // --name ARG
    | Unclear(dashes: string, name: string, tail: string)           // --name for a name that means no option
    | Word(k: nat, joined: bool, name: string, tail: string)        // -Wname=ARG, -W name=ARG
    | WordSeparate(k: nat, joined: bool, name: string, arg: string)  // -Wname ARG, -W name ARG
    | OtherWord(joined: bool, name: string, tail: string)           // -W name for a name unheard of
    | Operand(s: string)

  /** So many colons stand in s at i. */
  predicate Colons(s: string, i: nat, n: nat) {
    && (n > 0 <==> i < |s| && s[i] == ':')
    && (n > 0 ==> (n > 1 <==> i + 1 < |s| && s[i + 1] == ':'))
  }

  /** The first c of optstring stands at i. */
  predicate FirstOf(s: string, c: char, i: nat) {
    i < |s| && s[i] == c && c !in s[..i]
  }

  /** An option character as optstring has it, with so many colons behind it. */
  predicate Listed(cfg: Config, c: char, colons: nat) {
    c !in "-+:" && !(c == 'W' && HasW(cfg))
    && exists i :: 0 <= i < |cfg.optstring| && FirstOf(cfg.optstring, c, i) && Colons(cfg.optstring, i + 1, colons)
  }

  /** `-W name` is read as `--name`. */
  predicate HasW(cfg: Config) {
    exists i :: 0 <= i < |cfg.optstring| - 1 && FirstOf(cfg.optstring, 'W', i) && cfg.optstring[i + 1] == ';'
  }

  /** A character that is no option. */
  predicate Unlisted(cfg: Config, c: char) {
    c !in "-+" && (c == ':' || c !in cfg.optstring)
  }

  predicate AllFlags(cfg: Config, s: string) {
    forall i :: 0 <= i < |s| ==> Listed(cfg, s[i], 0) || Unlisted(cfg, s[i])
  }

  /** Text that may stand for a long option, up to the `=` of its argument. */
  predicate NamePart(name: string, tail: string) {
    name != "" && '=' !in name && (tail == "" || tail[0] == '=')
  }

  /** Whether text behind a single dash is looked up as a name, which only getopt_long_only does. */
  predicate Dashed(cfg: Config, dashes: string, text: string) {
    dashes == "--"
    || (dashes == "-" && cfg.longOnly && text != "" && text[0] != '-' && (|text| > 1 || text[0] !in cfg.optstring))
  }

  /** No option's name begins with the text, up to a `=`. */
  predicate BeginsNone(opts: seq<LongOption>, text: string) {
    forall n :: 0 <= n <= |text| && '=' !in text[..n] && (n == |text| || text[n] == '=') ==> Unheard(opts, text[..n])
  }

  /** The first n characters behind a dash are not looked up as names, or in vain. */
  predicate Shortly(cfg: Config, text: string, n: nat) {
    cfg.longOnly && cfg.longopts.Some? ==>
      forall i :: 0 <= i < n && i < |text| ==>
        !Unlisted(cfg, text[i]) && (|text| == 1 || BeginsNone(cfg.longopts.value, text[i..]))
  }

  predicate Meant(cfg: Config, name: string, strict: bool, k: nat) {
    cfg.longopts.Some? && Means(cfg.longopts.value, name, strict, k)
  }

  /** Operands do not begin with a dash, but for the dash itself. */
  predicate IsOperand(s: string) {
    s == "" || s == "-" || s[0] != '-'
  }

  /** Optstring begins with the character. */
  predicate Begins(cfg: Config, c: char) {
    cfg.optstring != "" && cfg.optstring[0] == c
  }

  /** The first operand ends the scan. */
  predicate StopsAtOperand(cfg: Config) {
    Begins(cfg, '+') || (cfg.posixlyCorrect && !Begins(cfg, '-'))
  }

  /** Operands are passed over; otherwise, unless they stop the scan, they are handed over in order. */
  predicate PassesOperands(cfg: Config) {
    !Begins(cfg, '-') && !StopsAtOperand(cfg)
  }

  lemma ModeMeans(cfg: Config, s: string)
    ensures StopsAtOperand(cfg) <==> Mode(cfg) == RequireOrder
    ensures PassesOperands(cfg) <==> Mode(cfg) == Permute
    ensures IsOperand(s) <==> Nonoption(s)
  {
    if |s| == 1 && s[0] == '-' {
      assert s == "-";
    }
  }

  /** Items that can be written without being taken for something else. */
  predicate Clear(cfg: Config, it: Item) {
    match it
    case Flags(fs) => fs != "" && AllFlags(cfg, fs) && Shortly(cfg, fs, |fs|)
    case Joined(fs, c, arg) =>
      && AllFlags(cfg, fs) && (Listed(cfg, c, 1) || Listed(cfg, c, 2)) && arg != ""
      && Shortly(cfg, fs + ([c] + arg), |fs| + 1)
    case Separate(fs, c, _) => AllFlags(cfg, fs) && Listed(cfg, c, 1) && Shortly(cfg, fs + [c], |fs| + 1)
    case Bare(fs, c) => AllFlags(cfg, fs) && Listed(cfg, c, 2) && Shortly(cfg, fs + [c], |fs| + 1)
    case Long(k, dashes, name, tail) =>
      && NamePart(name, tail) && Dashed(cfg, dashes, name + tail) && Meant(cfg, name, cfg.longOnly, k)
      && (tail == "" ==> cfg.longopts.value[k].hasArg != 1)
    case LongSeparate(k, dashes, name, _) =>
      && NamePart(name, "") && Dashed(cfg, dashes, name) && Meant(cfg, name, cfg.longOnly, k)
      && cfg.longopts.value[k].hasArg == 1
    case Unclear(dashes, name, tail) =>
      && NamePart(name, tail) && Dashed(cfg, dashes, name + tail) && cfg.longopts.Some?
      && (Divided(cfg.longopts.value, name, cfg.longOnly)
          || (Unheard(cfg.longopts.value, name) && (dashes == "-" ==> name[0] !in cfg.optstring)))
    case Word(k, joined, name, tail) =>
      && NamePart(name, tail) && HasW(cfg) && Meant(cfg, name, true, k)
      && (tail == "" ==> cfg.longopts.value[k].hasArg != 1)
      && Shortly(cfg, if joined then "W" + (name + tail) else "W", 1)
    case WordSeparate(k, joined, name, _) =>
      && NamePart(name, "") && HasW(cfg) && Meant(cfg, name, true, k) && cfg.longopts.value[k].hasArg == 1
      && Shortly(cfg, if joined then "W" + name else "W", 1)
    case OtherWord(joined, name, tail) =>
      && NamePart(name, tail) && HasW(cfg) && cfg.longopts.Some? && Unheard(cfg.longopts.value, name)
      && Shortly(cfg, if joined then "W" + (name + tail) else "W", 1)
    case Operand(s) => IsOperand(s) && !StopsAtOperand(cfg)
  }

  /** The arguments an item is written as. */
  function Words(it: Item): (ws: seq<string>)
    ensures |ws| > 0
  {
    match it
    case Flags(fs) => ["-" + fs]
    case Joined(fs, c, arg) => ["-" + (fs + ([c] + arg))]
    case Separate(fs, c, arg) => ["-" + (fs + [c]), arg]
    case Bare(fs, c) => ["-" + (fs + [c])]
    case Long(_, dashes, name, tail) => [dashes + (name + tail)]
    case LongSeparate(_, dashes, name, arg) => [dashes + name, arg]
    case Unclear(dashes, name, tail) => [dashes + (name + tail)]
    case Word(_, joined, name, tail) => WordWords(joined, name + tail)
    case WordSeparate(_, joined, name, arg) => WordWords(joined, name) + [arg]
    case OtherWord(joined, name, tail) => WordWords(joined, name + tail)
    case Operand(s) => [s]
  }

  function WordWords(joined: bool, word: string): (ws: seq<string>)
    ensures |ws| > 0
  {
    if joined then ["-" + ("W" + word)] else ["-W", word]
  }

  function ShortEvent(c: char, arg: Option<string>): Event {
    Event(Ret(c as int), arg, None, None, None)
  }

  /** The complaint `?`, with what optarg and optopt are left at. */
  function Complaint(arg: Option<string>, optopt: Option<int>): Event {
    Event(Ret('?' as int), arg, optopt, None, None)
  }

  function FlagEvent(cfg: Config, c: char): Event {
    if Unlisted(cfg, c) then Complaint(None, Some(c as int)) else ShortEvent(c, None)
  }

  function FlagEvents(cfg: Config, fs: string): seq<Event> {
    if fs == "" then [] else [FlagEvent(cfg, fs[0])] + FlagEvents(cfg, fs[1..])
  }

  function LongEvent(o: LongOption, k: nat, arg: Option<string>): Event {
    Event(if o.flag.Some? then Ret(0) else Ret(o.val), arg, None, Some(k),
          if o.flag.Some? then Some((o.flag.value, o.val)) else None)
  }

  /** What the caller is to be told of an item. */
  function Told(cfg: Config, it: Item): seq<Event>
    requires Clear(cfg, it)
  {
    match it
    case Flags(fs) => FlagEvents(cfg, fs)
    case Joined(fs, c, arg) => FlagEvents(cfg, fs) + [ShortEvent(c, Some(arg))]
    case Separate(fs, c, arg) => FlagEvents(cfg, fs) + [ShortEvent(c, Some(arg))]
    case Bare(fs, c) => FlagEvents(cfg, fs) + [ShortEvent(c, None)]
    case Long(k, _, _, tail) =>
      var o := cfg.longopts.value[k];
      if tail == "" then [LongEvent(o, k, None)]
      else if o.hasArg != 0 then [LongEvent(o, k, Some(tail[1..]))]
      else [Complaint(None, Some(o.val))]
    case LongSeparate(k, _, _, arg) => [LongEvent(cfg.longopts.value[k], k, Some(arg))]
    case Unclear(_, _, _) => [Complaint(None, Some(0))]
    case Word(k, _, name, tail) =>
      var o := cfg.longopts.value[k];
      if tail == "" then [LongEvent(o, k, Some(name))]
      else if o.hasArg != 0 then [LongEvent(o, k, Some(tail[1..]))]
      else [Complaint(Some(name + tail), None)]
    case WordSeparate(k, _, _, arg) => [LongEvent(cfg.longopts.value[k], k, Some(arg))]
    case OtherWord(_, name, tail) => [ShortEvent('W', Some(name + tail))]
    case Operand(s) => if PassesOperands(cfg) then [] else [ShortEvent(1 as char, Some(s))]
  }

  /** Operands are passed over if they may be permuted; all else is taken. */
  predicate IsTaken(cfg: Config, it: Item) {
    !(it.Operand? && PassesOperands(cfg))
  }

  function AllWords(its: seq<Item>): seq<string> {
    if its == [] then [] else Words(its[0]) + AllWords(its[1..])
  }

  function AllTold(cfg: Config, its: seq<Item>): seq<Event>
    requires forall i :: 0 <= i < |its| ==> Clear(cfg, its[i])
  {
    if its == [] then [] else Told(cfg, its[0]) + AllTold(cfg, its[1..])
  }

  function AllMarks(cfg: Config, its: seq<Item>): seq<bool> {
    if its == [] then [] else GetoptScan.Marks(IsTaken(cfg, its[0]), |Words(its[0])|) + AllMarks(cfg, its[1..])
  }

  /** r with events and marks before it. */
  function Before(events: seq<Event>, marks: seq<bool>, r: Run): Run {
    Run(events + r.events, marks + r.marks, r.overrun)
  }

  // ---------------------------------------------------------- short options

  lemma DashWord(s: string)
    requires s != "" && s[0] != '-'
    ensures !Nonoption("-" + s) && "-" + s != "--" && ("-" + s)[1..] == s && ("-" + s)[1] == s[0]
  {
    assert ("-" + s)[1] == s[0];
  }

  /** A call that opens an element is one that goes on with its text. */
  lemma OpensElement(cfg: Config, first: bool, args: seq<string>)
    requires Usable(cfg) && args != [] && !Nonoption(args[0]) && args[0] != "--"
    ensures RunFrom(cfg, first, args, "") == RunFrom(cfg, first, args, Opened(cfg, args[0]))
  {
  }

  /** One step of a run: what is taken, and then the rest of the run. */
  lemma StepOfRun(cfg: Config, first: bool, args: seq<string>, rest: string)
    requires Usable(cfg) && Reading(args, rest) && rest != ""
    ensures LongForm(Shorts(cfg, first)) ==> cfg.longopts.Some?
    ensures var t := Take(cfg, Shorts(cfg, first), args, rest);
            t.used <= |args| ==>
              Reading(args[t.used..], t.rest)
              && RunFrom(cfg, first, args, rest)
                 == Before([t.event], Marks(true, t.used), RunFrom(cfg, false, args[t.used..], t.rest))
  {
    LongFormKept(cfg, first);
    var t := Take(cfg, Shorts(cfg, first), args, rest);
    assert args[0..] == args;
    var s := GetoptScan.Next(cfg, first, args, rest);
    assert s == TakeFrom(cfg, Shorts(cfg, first), args, rest, 0);
    assert Marks(false, 0) + Marks(true, t.used) == Marks(true, t.used);
  }

  lemma {:induction false} StrChrAt(s: string, c: char, i: nat)
    requires FirstOf(s, c, i)
    ensures StrChr(s, c) == Some(s[i..])
  {
    if i > 0 {
      assert s[0] in s[..i] && s[1..][..i - 1] == s[..i][1..];
      StrChrAt(s[1..], c, i - 1);
      assert s[1..][i - 1..] == s[i..];
    }
  }

  lemma {:induction false} StrChrNone(s: string, c: char)
    ensures StrChr(s, c).None? <==> c !in s
    ensures StrChr(s, c).Some? ==> exists i :: 0 <= i < |s| && FirstOf(s, c, i)
  {
    if s != "" {
      StrChrNone(s[1..], c);
      assert s == [s[0]] + s[1..];
      if s[0] == c {
        assert FirstOf(s, c, 0);
      } else if StrChr(s[1..], c).Some? {
        var i :| 0 <= i < |s[1..]| && FirstOf(s[1..], c, i);
        assert s[..i + 1] == [s[0]] + s[1..][..i];
        assert FirstOf(s, c, i + 1);
      }
    }
  }

  /** The ordering character in front of optstring is no option. */
  lemma ShortsStrChr(cfg: Config, first: bool, c: char)
    requires c !in "-+"
    ensures StrChr(Shorts(cfg, first), c) == StrChr(cfg.optstring, c)
  {
  }

  lemma WFormed(cfg: Config, first: bool)
    ensures HasW(cfg) <==> LongForm(Shorts(cfg, first))
  {
    ShortsStrChr(cfg, first, 'W');
    StrChrNone(cfg.optstring, 'W');
    if i :| 0 <= i < |cfg.optstring| && FirstOf(cfg.optstring, 'W', i) {
      StrChrAt(cfg.optstring, 'W', i);
      assert forall j :: 0 <= j < |cfg.optstring| && FirstOf(cfg.optstring, 'W', j) ==> j == i;
    }
  }

  /** What is found of a listed option. */
  lemma ListedAt(cfg: Config, first: bool, c: char, colons: nat)
    requires Listed(cfg, c, colons)
    ensures var at := StrChr(Shorts(cfg, first), c);
            at.Some? && at.value != "" && Colons(at.value, 1, colons)
    ensures !(c == 'W' && LongForm(Shorts(cfg, first))) && !Unlisted(cfg, c)
  {
    var i :| 0 <= i < |cfg.optstring| && FirstOf(cfg.optstring, c, i) && Colons(cfg.optstring, i + 1, colons);
    ShortsStrChr(cfg, first, c);
    StrChrAt(cfg.optstring, c, i);
    WFormed(cfg, first);
  }

  lemma UnlistedAt(cfg: Config, first: bool, c: char)
    requires c !in "-+"
    ensures Unlisted(cfg, c) <==> c == ':' || StrChr(Shorts(cfg, first), c).None?
  {
    ShortsStrChr(cfg, first, c);
    StrChrNone(cfg.optstring, c);
  }

  /** The element at the front is a dash and a text of which `rest` is left, and begins with an option. */
  predicate AtShort(cfg: Config, args: seq<string>, rest: string) {
    && args != [] && Reading(args, rest) && rest != "" && args[0][1] != '-' && rest[0] !in "-+"
    && (cfg.longOnly && cfg.longopts.Some? ==>
          !Unlisted(cfg, rest[0]) && (args[0][1..] == rest == [rest[0]] || BeginsNone(cfg.longopts.value, rest)))
  }

  lemma {:induction false} NameLengthSplits(s: string)
    ensures var n := NameLength(s); '=' !in s[..n] && (n == |s| || s[n] == '=')
  {
  }

  /** There only short options are looked for. */
  lemma ShortTaken(cfg: Config, first: bool, args: seq<string>, rest: string)
    requires Usable(cfg) && AtShort(cfg, args, rest)
    ensures LongForm(Shorts(cfg, first)) ==> cfg.longopts.Some?
    ensures Take(cfg, Shorts(cfg, first), args, rest) == TakeShort(cfg, Shorts(cfg, first), args, rest)
  {
    LongFormKept(cfg, first);
    UnlistedAt(cfg, first, rest[0]);
    hide TakeShort, MatchLong, TakeLong, StrChr, NameLength, Shorts, LongForm;
    if cfg.longOnly && cfg.longopts.Some? {
      if args[0][1..] == rest == [rest[0]] {
        assert args[0][1..][0] == rest[0];
      } else {
        NameLengthSplits(rest);
        MatchMeans(cfg.longopts.value, rest[..NameLength(rest)], true);
      }
    }
  }

  lemma FlagTaken(cfg: Config, first: bool, args: seq<string>, c: char, more: string)
    requires Usable(cfg) && (Listed(cfg, c, 0) || Unlisted(cfg, c)) && args != []
    ensures LongForm(Shorts(cfg, first)) ==> cfg.longopts.Some?
    ensures TakeShort(cfg, Shorts(cfg, first), args, [c] + more)
         == GetoptScan.Taken(FlagEvent(cfg, c), if more == "" then 1 else 0, more)
  {
    LongFormKept(cfg, first);
    UnlistedAt(cfg, first, c);
    if Listed(cfg, c, 0) {
      ListedAt(cfg, first, c, 0);
    }
    hide StrChr, LongForm, Shorts, Listed, Unlisted, TakeW;
    assert ([c] + more)[1..] == more;
  }

  lemma ArgumentTaken(cfg: Config, first: bool, args: seq<string>, c: char, more: string, colons: nat)
    requires Usable(cfg) && Listed(cfg, c, colons) && 1 <= colons <= 2 && args != []
    ensures LongForm(Shorts(cfg, first)) ==> cfg.longopts.Some?
    ensures var t := TakeShort(cfg, Shorts(cfg, first), args, [c] + more);
            if more != "" then t == GetoptScan.Taken(ShortEvent(c, Some(more)), 1, "")
            else if colons == 2 then t == GetoptScan.Taken(ShortEvent(c, None), 1, "")
            else if |args| > 1 then t == GetoptScan.Taken(ShortEvent(c, Some(args[1])), 2, "")
            else t == GetoptScan.Taken(Event(Missing(cfg, first), None, Some(c as int), None, None), 1, "")
  {
    LongFormKept(cfg, first);
    ListedAt(cfg, first, c, colons);
    MissingIs(cfg, first);
    hide StrChr, LongForm, Shorts, Listed, Unlisted, TakeW, MissingCode, Missing;
    assert ([c] + more)[1..] == more;
  }

  /** What is returned for a missing argument: `:` if optstring begins with it behind the ordering character. */
  function Missing(cfg: Config, first: bool): Code {
    var s := cfg.optstring;
    var i := if first && s != "" && (s[0] == '-' || s[0] == '+') then 1 else 0;
    if i < |s| && s[i] == ':' then Ret(':' as int) else Ret('?' as int)
  }

  lemma MissingIs(cfg: Config, first: bool)
    ensures MissingCode(Shorts(cfg, first)) == Missing(cfg, first)
  {
  }

  lemma FlagRead(cfg: Config, first: bool, args: seq<string>, c: char, more: string)
    requires Usable(cfg) && (Listed(cfg, c, 0) || Unlisted(cfg, c)) && AtShort(cfg, args, [c] + more)
    ensures RunFrom(cfg, first, args, [c] + more)
         == if more == "" then Before([FlagEvent(cfg, c)], [true], RunFrom(cfg, false, args[1..], ""))
            else Before([FlagEvent(cfg, c)], [], RunFrom(cfg, false, args, more))
  {
    hide RunFrom, Take, TakeShort, Shorts, LongForm, Listed, Unlisted, BeginsNone, FlagEvent;
    StepOfRun(cfg, first, args, [c] + more);
    ShortTaken(cfg, first, args, [c] + more);
    FlagTaken(cfg, first, args, c, more);
    assert args[0..] == args;
  }

  /** Everything up to `more` is at a short option. */
  predicate AllShort(cfg: Config, args: seq<string>, fs: string, more: string) {
    forall i :: 0 <= i < |fs| ==> AtShort(cfg, args, fs[i..] + more)
  }

  /** A cluster of flags before something else in the same element. */
  lemma {:induction false} FlagsRead(cfg: Config, first: bool, args: seq<string>, fs: string, more: string)
    requires Usable(cfg) && AllFlags(cfg, fs) && more != "" && Reading(args, fs + more) && AllShort(cfg, args, fs, more)
    ensures Reading(args, more)
    ensures RunFrom(cfg, first, args, fs + more)
         == Before(FlagEvents(cfg, fs), [], RunFrom(cfg, first && fs == "", args, more))
    decreases |fs|
  {
    hide RunFrom, Listed, Unlisted, Usable, Nonoption, AtShort, FlagEvent;
    if fs == "" {
      assert fs + more == more;
      BeforeNothing(RunFrom(cfg, first, args, more));
    } else {
      var tail := fs[1..] + more;
      assert fs + more == [fs[0]] + tail && fs[0..] == fs;
      forall i | 0 <= i < |fs[1..]|
        ensures AtShort(cfg, args, fs[1..][i..] + more)
      {
        assert fs[1..][i..] == fs[i + 1..];
      }
      FlagRead(cfg, first, args, fs[0], tail);
      FlagsRead(cfg, false, args, fs[1..], more);
      BeforeBefore([FlagEvent(cfg, fs[0])], [], FlagEvents(cfg, fs[1..]), [], RunFrom(cfg, false, args, more));
    }
  }

  lemma BeforeNothing(r: Run)
    ensures Before([], [], r) == r
  {
  }

  lemma BeforeBefore(e1: seq<Event>, m1: seq<bool>, e2: seq<Event>, m2: seq<bool>, r: Run)
    ensures Before(e1, m1, Before(e2, m2, r)) == Before(e1 + e2, m1 + m2, r)
  {
  }

  lemma ShortReads(cfg: Config, args: seq<string>, rest: string)
    requires AtShort(cfg, args, rest)
    ensures args != [] && Reading(args, rest)
  {
  }

  lemma NoReading(args: seq<string>)
    ensures Reading(args, "")
  {
  }

  lemma MarksTrue()
    ensures Marks(true, 1) == [true] && Marks(true, 2) == [true, true]
  {
  }

  /** An option with an argument, joined to it, in the next element, or not there. */
  lemma ArgumentRead(cfg: Config, first: bool, args: seq<string>, c: char, arg: string, colons: nat)
    requires Usable(cfg) && Listed(cfg, c, colons) && 1 <= colons <= 2 && AtShort(cfg, args, [c] + arg)
    ensures arg != "" ==>
              RunFrom(cfg, first, args, [c] + arg)
              == Before([ShortEvent(c, Some(arg))], [true], RunFrom(cfg, false, args[1..], ""))
    ensures arg == "" && colons == 2 ==>
              RunFrom(cfg, first, args, [c])
              == Before([ShortEvent(c, None)], [true], RunFrom(cfg, false, args[1..], ""))
    ensures arg == "" && colons == 1 && |args| > 1 ==>
              RunFrom(cfg, first, args, [c])
              == Before([ShortEvent(c, Some(args[1]))], [true, true], RunFrom(cfg, false, args[2..], ""))
    ensures arg == "" && colons == 1 && |args| == 1 ==>
              RunFrom(cfg, first, args, [c])
              == Before([Event(Missing(cfg, first), None, Some(c as int), None, None)], [true],
                        RunFrom(cfg, false, [], ""))
  {
    hide *;
    assert [c] + "" == [c];
    ShortReads(cfg, args, [c] + arg);
    StepOfRun(cfg, first, args, [c] + arg);
    ShortTaken(cfg, first, args, [c] + arg);
    ArgumentTaken(cfg, first, args, c, arg, colons);
    MarksTrue();
    NoReading(args);
  }

  // ----------------------------------------------------------- long options

  lemma {:induction false} NameEnds(name: string, tail: string)
    requires '=' !in name && (tail == "" || tail[0] == '=')
    ensures NameLength(name + tail) == |name|
    ensures (name + tail)[..|name|] == name && (name + tail)[|name|..] == tail
  {
    if name == "" {
      assert name + tail == tail;
    } else {
      NameEnds(name[1..], tail);
      assert (name + tail)[1..] == name[1..] + tail;
    }
  }

  /** The element is looked up as a name. */
  lemma DashedOpens(cfg: Config, first: bool, s: string, dashes: string, text: string)
    requires text != "" && Dashed(cfg, dashes, text) && s == dashes + text && cfg.longopts.Some?
    ensures !Nonoption(s) && s != "--" && Opened(cfg, s) == text && TriesLong(cfg, Shorts(cfg, first), s)
    ensures s[1] == '-' <==> dashes == "--"
  {
    if dashes == "--" {
      assert s[2..] == text && s[1] == '-';
    } else {
      DashWord(text);
      if |text| == 1 {
        assert |s| == 2;
        StrChrNone(Shorts(cfg, first), text[0]);
      }
    }
  }

  /** What is taken of it. */
  lemma NameTaken(cfg: Config, first: bool, args: seq<string>, dashes: string, name: string, tail: string)
    requires Usable(cfg) && cfg.longopts.Some? && NamePart(name, tail) && Dashed(cfg, dashes, name + tail)
    requires args != [] && args[0] == dashes + (name + tail)
    ensures Reading(args, name + tail)
    ensures RunFrom(cfg, first, args, "") == RunFrom(cfg, first, args, name + tail)
    ensures LongForm(Shorts(cfg, first)) ==> cfg.longopts.Some?
    ensures var t := Take(cfg, Shorts(cfg, first), args, name + tail);
            match MatchLong(cfg.longopts.value, name, cfg.longOnly)
            case Ambiguous => t == GetoptScan.Taken(Complaint(None, Some(0)), 1, "")
            case Found(k) => t == TakeLong(cfg.longopts.value, k, tail, Shorts(cfg, first), args[1..], 1, None, false)
            case NoMatch =>
              dashes == "--" || name[0] !in cfg.optstring ==> t == GetoptScan.Taken(Complaint(None, Some(0)), 1, "")
  {
    LongFormKept(cfg, first);
    NameEnds(name, tail);
    DashedOpens(cfg, first, args[0], dashes, name + tail);
    assert (name + tail)[0] == name[0];
    StrChrNone(Shorts(cfg, first), name[0]);
    hide RunFrom, MatchLong, TakeLong, TakeShort, StrChr, NameLength, LongForm;
    OpensElement(cfg, first, args);
  }

  /** A long option as the table and the argument have it. */
  lemma TakenAsTold(cfg: Config, first: bool, k: nat, tail: string, args: seq<string>, used: nat, word: Option<string>)
    requires cfg.longopts.Some? && k < |cfg.longopts.value|
    ensures var o := cfg.longopts.value[k];
            var t := TakeLong(cfg.longopts.value, k, tail, Shorts(cfg, first), args, used, word, word.Some?);
            var optopt := if word.Some? then None else Some(o.val);
            if tail != "" && o.hasArg != 0 then t == GetoptScan.Taken(LongEvent(o, k, Some(tail[1..])), used, "")
            else if tail != "" then t == GetoptScan.Taken(Complaint(word, optopt), used, "")
            else if o.hasArg != 1 then t == GetoptScan.Taken(LongEvent(o, k, word), used, "")
            else if args != [] then t == GetoptScan.Taken(LongEvent(o, k, Some(args[0])), used + 1, "")
            else t == GetoptScan.Taken(Event(Missing(cfg, first), word, optopt, None, None), used, "")
  {
    MissingIs(cfg, first);
    hide MissingCode, Missing, Shorts;
  }

  /** The run goes on behind what was taken. */
  lemma TakenRead(cfg: Config, first: bool, args: seq<string>, rest: string, e: Event, used: nat)
    requires Usable(cfg) && Reading(args, rest) && rest != "" && used <= |args|
    requires LongForm(Shorts(cfg, first)) ==> cfg.longopts.Some?
    requires Take(cfg, Shorts(cfg, first), args, rest) == GetoptScan.Taken(e, used, "")
    ensures RunFrom(cfg, first, args, rest) == Before([e], Marks(true, used), RunFrom(cfg, false, args[used..], ""))
  {
    hide RunFrom, Take, Shorts, LongForm;
    StepOfRun(cfg, first, args, rest);
  }

  lemma LongItem(cfg: Config, first: bool, it: Item, args: seq<string>)
    requires Usable(cfg) && Clear(cfg, it) && (it.Long? || it.LongSeparate? || it.Unclear?)
    ensures RunFrom(cfg, first, Words(it) + args, "")
         == Before(Told(cfg, it), Marks(true, |Words(it)|), RunFrom(cfg, false, args, ""))
  {
    hide RunFrom, Mode, MatchLong, TakeLong, Take, Means, Divided, Unheard, LongForm, Shorts, Usable;
    var all, tail := Words(it) + args, if it.LongSeparate? then "" else it.tail;
    assert it.name + "" == it.name;
    assert all[1..] == Words(it)[1..] + args && all[|Words(it)|..] == args;
    NameTaken(cfg, first, all, it.dashes, it.name, tail);
    MatchMeans(cfg.longopts.value, it.name, cfg.longOnly);
    if !it.Unclear? {
      TakenAsTold(cfg, first, it.k, tail, all[1..], 1, None);
    }
    assert |Told(cfg, it)| == 1;
    TakenRead(cfg, first, all, it.name + tail, Told(cfg, it)[0], |Words(it)|);
  }

  // --------------------------------------------------------- names behind -W

  lemma WordTaken(cfg: Config, first: bool, args: seq<string>, rest: string, joined: bool, name: string, tail: string)
    requires Usable(cfg) && HasW(cfg) && cfg.longopts.Some? && NamePart(name, tail) && args != []
    requires rest == if joined then name + tail else ""
    requires !joined ==> |args| > 1 && args[1] == name + tail
    ensures LongForm(Shorts(cfg, first)) ==> cfg.longopts.Some?
    ensures var t := TakeShort(cfg, Shorts(cfg, first), args, "W" + rest);
            var used := if joined then 1 else 2;
            match MatchLong(cfg.longopts.value, name, true)
            case Ambiguous => t == GetoptScan.Taken(Complaint(Some(name + tail), None), used + 1, "")
            case Found(k) =>
              var opts, word := cfg.longopts.value, Some(name + tail);
              t == TakeLong(opts, k, tail, Shorts(cfg, first), args[used..], used, word, true)
            case NoMatch => t == GetoptScan.Taken(ShortEvent('W', Some(name + tail)), used, "")
  {
    LongFormKept(cfg, first);
    WFormed(cfg, first);
    NameEnds(name, tail);
    hide MatchLong, TakeLong, StrChr, NameLength, Shorts;
    assert ("W" + rest)[1..] == rest;
  }

  lemma WordItem(cfg: Config, first: bool, it: Item, args: seq<string>)
    requires Usable(cfg) && Clear(cfg, it) && (it.Word? || it.WordSeparate? || it.OtherWord?)
    ensures RunFrom(cfg, first, Words(it) + args, "")
         == Before(Told(cfg, it), Marks(true, |Words(it)|), RunFrom(cfg, false, args, ""))
  {
    hide RunFrom, Mode, MatchLong, TakeLong, Take, TakeShort, Means, Unheard, LongForm, Shorts, Usable, AtShort, HasW;
    var all, tail := Words(it) + args, if it.WordSeparate? then "" else it.tail;
    assert it.name + "" == it.name;
    var word := it.name + tail;
    var rest, used := if it.joined then word else "", if it.joined then 1 else 2;
    assert "W" + "" == "W";
    AtW(cfg, all, rest);
    WordTaken(cfg, first, all, rest, it.joined, it.name, tail);
    ShortTaken(cfg, first, all, "W" + rest);
    MatchMeans(cfg.longopts.value, it.name, true);
    assert all[used..] == Words(it)[used..] + args && all[|Words(it)|..] == args;
    if !it.OtherWord? {
      TakenAsTold(cfg, first, it.k, tail, all[used..], used, Some(word));
    }
    assert |Told(cfg, it)| == 1;
    OpensElement(cfg, first, all);
    TakenRead(cfg, first, all, "W" + rest, Told(cfg, it)[0], |Words(it)|);
  }

  lemma AtW(cfg: Config, all: seq<string>, rest: string)
    requires all != [] && all[0] == "-" + ("W" + rest) && Shortly(cfg, "W" + rest, 1) && HasW(cfg)
    ensures AtShort(cfg, all, "W" + rest) && all[0] != "--" && Opened(cfg, all[0]) == "W" + rest
  {
    var text := "W" + rest;
    DashWord(text);
    assert text[0..] == text;
    if |text| == 1 {
      assert text == ['W'];
    }
  }

  // -------------------------------------------------------------- all items

  /** n is m with an element more passed over in front. */
  predicate OneMore(n: Scan, m: Scan) {
    n.event == m.event && n.used == m.used + 1 && n.rest == m.rest && n.marks == [false] + m.marks
  }

  lemma TakeFromPassed(cfg: Config, shorts: string, s: string, args: seq<string>, rest: string, j: nat)
    requires LongForm(shorts) ==> cfg.longopts.Some?
    requires j < |args| && !Nonoption(args[j]) && rest != "" && |rest| < |args[j]|
    ensures ([s] + args)[j + 1] == args[j]
    ensures var n, m := TakeFrom(cfg, shorts, [s] + args, rest, j + 1), TakeFrom(cfg, shorts, args, rest, j);
            OneMore(n, m)
  {
    hide Take, Nonoption, LongForm;
    var all := [s] + args;
    assert all[j + 1..] == args[j..];
    var t := Take(cfg, shorts, args[j..], rest);
    MarksPassed(j, Marks(true, if t.used <= |args| - j then t.used else |args| - j));
  }

  lemma MarksPassed(j: nat, m: seq<bool>)
    ensures Marks(false, j + 1) + m == [false] + (Marks(false, j) + m)
  {
  }

  lemma StopPassed(j: nat, taken: nat, left: nat)
    ensures var n, m := Stop(j + 1, taken, left), Stop(j, taken, left);
            OneMore(n, m)
  {
  }

  lemma SkippedOne(s: string, args: seq<string>)
    requires Nonoption(s)
    ensures Skipped(Permute, [s] + args) == Skipped(Permute, args) + 1
  {
  }

  /** A call in the permuting order. */
  lemma NextAt(cfg: Config, first: bool, args: seq<string>, j: nat)
    requires Usable(cfg) && Mode(cfg) == Permute && j == Skipped(Permute, args)
    ensures LongForm(Shorts(cfg, first)) ==> cfg.longopts.Some?
    ensures j <= |args| && (j < |args| ==> !Nonoption(args[j]))
    ensures GetoptScan.Next(cfg, first, args, "") == (
              if j == |args| then Stop(j, 0, 0)
              else if args[j] == "--" then Stop(j, 1, |args| - j - 1)
              else TakeFrom(cfg, Shorts(cfg, first), args, Opened(cfg, args[j]), j))
  {
    LongFormKept(cfg, first);
    hide TakeFrom, Opened, Shorts, Mode, Nonoption, Stop, LongForm, Skipped;
  }

  lemma NextPassed(cfg: Config, first: bool, s: string, args: seq<string>)
    requires Usable(cfg) && Nonoption(s) && Mode(cfg) == Permute
    ensures var n, m := GetoptScan.Next(cfg, first, [s] + args, ""), GetoptScan.Next(cfg, first, args, "");
            OneMore(n, m)
  {
    hide GetoptScan.Next, TakeFrom, Opened, Shorts, Mode, Usable, Nonoption, Stop, LongForm, Skipped, OneMore;
    var all := [s] + args;
    var j := Skipped(Permute, args);
    SkippedOne(s, args);
    NextAt(cfg, first, args, j);
    NextAt(cfg, first, all, j + 1);
    if j == |args| {
      StopPassed(j, 0, 0);
    } else if args[j] == "--" {
      StopPassed(j, 1, |args| - j - 1);
    } else {
      TakeFromPassed(cfg, Shorts(cfg, first), s, args, Opened(cfg, args[j]), j);
    }
  }

  /** A run by its first call. */
  lemma RunByCalls(cfg: Config, first: bool, args: seq<string>)
    requires Usable(cfg)
    ensures var s := GetoptScan.Next(cfg, first, args, "");
            RunFrom(cfg, first, args, "") == (
              if s.event.code.End? then Run([], s.marks, false)
              else if s.used > |args| then Run([s.event], s.marks, true)
              else Before([s.event], s.marks, RunFrom(cfg, false, args[s.used..], s.rest)))
  {
  }

  /** An operand that may be permuted is passed over. */
  lemma OperandPassed(cfg: Config, first: bool, s: string, args: seq<string>)
    requires Usable(cfg) && Nonoption(s) && Mode(cfg) == Permute
    ensures RunFrom(cfg, first, [s] + args, "") == Before([], [false], RunFrom(cfg, first, args, ""))
  {
    hide GetoptScan.Next, RunFrom, Nonoption, Mode, Usable;
    var all := [s] + args;
    NextPassed(cfg, first, s, args);
    RunByCalls(cfg, first, all);
    RunByCalls(cfg, first, args);
    var n, m := GetoptScan.Next(cfg, first, all, ""), GetoptScan.Next(cfg, first, args, "");
    if n.used <= |all| {
      assert all[n.used..] == args[m.used..];
      BeforeBefore([], [false], [m.event], m.marks, RunFrom(cfg, false, args[m.used..], m.rest));
    }
  }

  /** An element of short options: flags first. */
  lemma ClusterRead(cfg: Config, first: bool, args: seq<string>, fs: string, more: string)
    requires Usable(cfg) && AllFlags(cfg, fs) && more != "" && more[0] !in "-+" && Shortly(cfg, fs + more, |fs| + 1)
    requires args != [] && args[0] == "-" + (fs + more)
    ensures AtShort(cfg, args, more)
    ensures RunFrom(cfg, first, args, "")
         == Before(FlagEvents(cfg, fs), [], RunFrom(cfg, first && fs == "", args, more))
  {
    hide RunFrom, Listed, BeginsNone;
    var text := fs + more;
    forall i | 0 <= i <= |fs|
      ensures AtShort(cfg, args, fs[i..] + more)
    {
      assert text[i..] == fs[i..] + more && text[i] == (fs[i..] + more)[0];
      if fs != "" {
        NoDash(cfg, fs[0]);
      }
      if i < |fs| {
        NoDash(cfg, fs[i]);
      }
      AtShortHere(cfg, args, text, i);
    }
    assert fs[|fs|..] + more == more && fs[0..] + more == text;
    DashWord(text);
    OpensElement(cfg, first, args);
    FlagsRead(cfg, first, args, fs, more);
  }

  lemma NoDash(cfg: Config, c: char)
    requires Listed(cfg, c, 0) || Unlisted(cfg, c)
    ensures c !in "-+"
  {
  }

  lemma AtShortHere(cfg: Config, args: seq<string>, text: string, i: nat)
    requires args != [] && args[0] == "-" + text && i < |text| && text[0] != '-' && text[i] !in "-+"
    requires Shortly(cfg, text, i + 1)
    ensures AtShort(cfg, args, text[i..])
  {
    hide BeginsNone, Unlisted;
    DashWord(text);
    if |text| == 1 {
      assert text[0..] == text == [text[0]];
    }
  }

  lemma {:induction false} FlagEventsConcat(cfg: Config, fs: string, gs: string)
    ensures FlagEvents(cfg, fs + gs) == FlagEvents(cfg, fs) + FlagEvents(cfg, gs)
  {
    if fs == "" {
      assert fs + gs == gs;
    } else {
      hide FlagEvent;
      FlagEventsConcat(cfg, fs[1..], gs);
      assert (fs + gs)[1..] == fs[1..] + gs && (fs + gs)[0] == fs[0];
    }
  }

  lemma FlagsItem(cfg: Config, first: bool, fs: string, args: seq<string>)
    requires Usable(cfg) && Clear(cfg, Flags(fs))
    ensures RunFrom(cfg, first, ["-" + fs] + args, "")
         == Before(FlagEvents(cfg, fs), [true], RunFrom(cfg, false, args, ""))
  {
    hide RunFrom, Usable, AtShort;
    var all, front, c := ["-" + fs] + args, fs[..|fs| - 1], fs[|fs| - 1];
    assert fs == front + [c] && all[1..] == args;
    NoDash(cfg, c);
    hide Listed, Unlisted, Shortly;
    ClusterRead(cfg, first, all, front, [c]);
    assert [c] + "" == [c];
    FlagRead(cfg, first && front == "", all, c, "");
    BeforeBefore(FlagEvents(cfg, front), [], [FlagEvent(cfg, c)], [true], RunFrom(cfg, false, args, ""));
    FlagEventsConcat(cfg, front, [c]);
    assert FlagEvents(cfg, [c]) == [FlagEvent(cfg, c)];
  }

  /** A cluster that ends in an option with an argument. */
  lemma ArgumentItem(cfg: Config, first: bool, it: Item, args: seq<string>)
    requires Usable(cfg) && Clear(cfg, it) && (it.Joined? || it.Separate? || it.Bare?)
    ensures RunFrom(cfg, first, Words(it) + args, "")
         == Before(Told(cfg, it), Marks(true, |Words(it)|), RunFrom(cfg, false, args, ""))
  {
    hide RunFrom, Usable, AtShort, BeginsNone;
    var fs, c, arg := it.flags, it.c, if it.Joined? then it.arg else "";
    var colons := if (it.Joined? && Listed(cfg, c, 2)) || it.Bare? then 2 else 1;
    assert c !in "-+";
    hide Listed, Unlisted, Shortly;
    var all := Words(it) + args;
    assert [c] + "" == [c] && all[|Words(it)|..] == args && Marks(true, 1) == [true] && Marks(true, 2) == [true, true];
    ClusterRead(cfg, first, all, fs, [c] + arg);
    ArgumentRead(cfg, first && fs == "", all, c, arg, colons);
    var e := ShortEvent(c, if it.Bare? then None else Some(it.arg));
    BeforeBefore(FlagEvents(cfg, fs), [], [e], Marks(true, |Words(it)|), RunFrom(cfg, false, args, ""));
    assert [] + Marks(true, |Words(it)|) == Marks(true, |Words(it)|);
  }

  lemma OperandHanded(cfg: Config, first: bool, s: string, args: seq<string>)
    requires Usable(cfg) && Nonoption(s) && Mode(cfg) == ReturnInOrder
    ensures RunFrom(cfg, first, [s] + args, "")
         == Before([ShortEvent(1 as char, Some(s))], [true], RunFrom(cfg, false, args, ""))
  {
    var all := [s] + args;
    assert all[1..] == args;
    LongFormKept(cfg, first);
    hide TakeFrom, Opened, Shorts, Stop, LongForm;
    assert GetoptScan.Next(cfg, first, all, "") == Scan(ShortEvent(1 as char, Some(s)), Marks(true, 1), 1, "");
    RunByCalls(cfg, first, all);
  }

  /** The words of an item are read as the item, whatever follows. */
  lemma ItemRead(cfg: Config, first: bool, it: Item, args: seq<string>)
    requires Usable(cfg) && Clear(cfg, it)
    ensures RunFrom(cfg, first, Words(it) + args, "")
         == Before(Told(cfg, it), Marks(IsTaken(cfg, it), |Words(it)|),
                   RunFrom(cfg, first && !IsTaken(cfg, it), args, ""))
  {
    hide RunFrom, Reading, Mode;
    assert Marks(true, 1) == [true] && Marks(false, 1) == [false];
    match it
    case Flags(fs) => FlagsItem(cfg, first, fs, args);
    case Joined(_, _, _) => ArgumentItem(cfg, first, it, args);
    case Separate(_, _, _) => ArgumentItem(cfg, first, it, args);
    case Bare(_, _) => ArgumentItem(cfg, first, it, args);
    case Word(_, _, _, _) => WordItem(cfg, first, it, args);
    case WordSeparate(_, _, _, _) => WordItem(cfg, first, it, args);
    case OtherWord(_, _, _) => WordItem(cfg, first, it, args);
    case Operand(s) =>
      ModeMeans(cfg, s);
      if Mode(cfg) == Permute {
        OperandPassed(cfg, first, s, args);
      } else {
        OperandHanded(cfg, first, s, args);
      }
    case _ => LongItem(cfg, first, it, args);
  }

  /** What ends a scan: nothing more, `--`, or an operand if the order is required. */
  predicate Ends(cfg: Config, tail: seq<string>) {
    tail == [] || tail[0] == "--" || (StopsAtOperand(cfg) && IsOperand(tail[0]))
  }

  function EndMarks(tail: seq<string>): seq<bool> {
    if tail == [] then [] else [tail[0] == "--"] + Marks(false, |tail| - 1)
  }

  /**
   Options and operands written down, and whatever stands behind the end of the
   scan, are read back as what they were, in order; nothing else is reported.
   */
  lemma {:induction false} ReadAsMeant(cfg: Config, first: bool, its: seq<Item>, tail: seq<string>)
    requires Usable(cfg) && (forall i :: 0 <= i < |its| ==> Clear(cfg, its[i])) && Ends(cfg, tail)
    ensures RunFrom(cfg, first, AllWords(its) + tail, "")
         == Run(AllTold(cfg, its), AllMarks(cfg, its) + EndMarks(tail), false)
    decreases |its|
  {
    hide RunFrom, Clear, Words, Told, Usable, Ends;
    if its == [] {
      assert [] + tail == tail;
      EndRead(cfg, first, tail);
    } else {
      var it, more := its[0], AllWords(its[1..]) + tail;
      assert AllWords(its) + tail == Words(it) + more;
      ItemRead(cfg, first, it, more);
      ReadAsMeant(cfg, first && !IsTaken(cfg, it), its[1..], tail);
    }
  }

  lemma EndRead(cfg: Config, first: bool, tail: seq<string>)
    requires Usable(cfg) && Ends(cfg, tail)
    ensures RunFrom(cfg, first, tail, "") == Run([], EndMarks(tail), false)
  {
    ModeMeans(cfg, if tail == [] then "" else tail[0]);
  }

  /** An argument that is missing at the end of the command line. */
  lemma MissingRead(cfg: Config, first: bool, fs: string, c: char)
    requires Usable(cfg) && Clear(cfg, Separate(fs, c, ""))
    ensures RunFrom(cfg, first, ["-" + (fs + [c])], "")
         == Run(FlagEvents(cfg, fs) + [Event(Missing(cfg, first && fs == ""), None, Some(c as int), None, None)],
                [true], false)
  {
    hide *;
    var all := ["-" + (fs + [c])];
    SeparateParts(cfg, fs, c);
    NothingRead(cfg);
    assert [c] + "" == [c];
    ClusterRead(cfg, first, all, fs, [c]);
    ArgumentRead(cfg, first && fs == "", all, c, "", 1);
    var e := Event(Missing(cfg, first && fs == ""), None, Some(c as int), None, None);
    JoinBefore(FlagEvents(cfg, fs), [e]);
  }

  lemma SeparateParts(cfg: Config, fs: string, c: char)
    requires Clear(cfg, Separate(fs, c, ""))
    ensures AllFlags(cfg, fs) && Listed(cfg, c, 1) && Shortly(cfg, fs + [c], |fs| + 1) && c !in "-+"
  {
    hide AllFlags, Shortly;
  }

  lemma NothingRead(cfg: Config)
    requires Usable(cfg)
    ensures RunFrom(cfg, false, [], "") == Run([], [], false)
  {
    EndRead(cfg, false, []);
    hide RunFrom, Usable;
  }

  lemma JoinBefore(events: seq<Event>, last: seq<Event>)
    ensures Before(last, [true], Run([], [], false)) == Run(last, [true], false)
    ensures Before(events, [], Before(last, [true], Run([], [], false))) == Run(events + last, [true], false)
  {
  }

  lemma LongSeparateParts(cfg: Config, k: nat, dashes: string, name: string)
    requires Clear(cfg, LongSeparate(k, dashes, name, ""))
    ensures cfg.longopts.Some? && k < |cfg.longopts.value| && cfg.longopts.value[k].hasArg == 1
    ensures name != "" && NamePart(name, "") && Dashed(cfg, dashes, name)
    ensures Means(cfg.longopts.value, name, cfg.longOnly, k)
  {
    hide Dashed, Alike;
  }

  lemma LongMissingRead(cfg: Config, first: bool, k: nat, dashes: string, name: string)
    requires Usable(cfg) && Clear(cfg, LongSeparate(k, dashes, name, ""))
    ensures RunFrom(cfg, first, [dashes + name], "")
         == Run([Event(Missing(cfg, first), None, Some(cfg.longopts.value[k].val), None, None)], [true], false)
  {
    hide *;
    var all := [dashes + name];
    LongSeparateParts(cfg, k, dashes, name);
    MarksTrue();
    assert all[1..] == [] && name + "" == name;
    NothingRead(cfg);
    NameTaken(cfg, first, all, dashes, name, "");
    MatchMeans(cfg.longopts.value, name, cfg.longOnly);
    TakenAsTold(cfg, first, k, "", [], 1, None);
    var e := Event(Missing(cfg, first), None, Some(cfg.longopts.value[k].val), None, None);
    TakenRead(cfg, first, all, name, e, 1);
    JoinBefore([], [e]);
  }

  /** `rat --ver`: the table has `verbose` and `version`. */
  lemma VerIsDivided()
    ensures var verbose := LongOption("verbose", 0, None, 'v' as int);
            var version := LongOption("version", 0, None, 'V' as int);
            RunFrom(Config("vV", Some([verbose, version]), false, false), true, ["--ver"], "")
            == Run([Event(Ret('?' as int), None, Some(0), None, None)], [true], false)
  {
    var opts := [LongOption("verbose", 0, None, 'v' as int), LongOption("version", 0, None, 'V' as int)];
    var cfg := Config("vV", Some(opts), false, false);
    var it := Unclear("--", "ver", "");
    VerClear(cfg, opts);
    hide Clear, RunFrom, Usable, Means, Divided, Ends;
    assert "ver" + "" == "ver" && "--" + "ver" == "--ver";
    ItemRead(cfg, true, it, []);
    EndRead(cfg, false, []);
    assert Words(it) + [] == ["--ver"];
    assert Marks(IsTaken(cfg, it), 1) + [] == [true];
  }

  lemma VerClear(cfg: Config, opts: seq<LongOption>)
    requires opts == [LongOption("verbose", 0, None, 'v' as int), LongOption("version", 0, None, 'V' as int)]
    requires cfg == Config("vV", Some(opts), false, false)
    ensures Usable(cfg) && Clear(cfg, Unclear("--", "ver", ""))
  {
    assert "ver" <= opts[0].name && "ver" <= opts[1].name && !Alike(opts[0], opts[1]);
    assert !HasW(cfg);
    WFormed(cfg, false);
  }
}
