/**
 GNU getopt as RAT ships it: a resumable scan that rotates the caller's argv in
 place so that options come first.
 */
module Getopt {
  import opened Wrappers
  import opened Sequences
  import opened GetoptScan

  /** The elements of s marked b, in order. */
  ghost function Selected(s: seq<string>, marks: seq<bool>, b: bool): (r: seq<string>)
    requires |s| == |marks|
    ensures |r| <= |s|
  {
    if s == [] then []
    else Selected(s[..|s| - 1], marks[..|s| - 1], b) + if marks[|s| - 1] == b then [s[|s| - 1]] else []
  }

  lemma {:induction false} SelectedConcat(s: seq<string>, m: seq<bool>, t: seq<string>, n: seq<bool>, b: bool)
    requires |s| == |m| && |t| == |n|
    ensures Selected(s + t, m + n, b) == Selected(s, m, b) + Selected(t, n, b)
  {
    if t == [] {
      assert s + t == s && m + n == m;
    } else {
      var k := |t| - 1;
      SelectedConcat(s, m, t[..k], n[..k], b);
      hide Selected;
      SelectedLast(t, n, b);
      SelectedLast(s + t, m + n, b);
      assert (s + t)[..|s + t| - 1] == s + t[..k];
      assert (m + n)[..|s + t| - 1] == m + n[..k];
      var last := if n[k] == b then [t[k]] else [];
      Assoc(Selected(s, m, b), Selected(t[..k], n[..k], b), last);
    }
  }

  lemma SelectedLast(s: seq<string>, m: seq<bool>, b: bool)
    requires |s| == |m| > 0
    ensures var k := |s| - 1; Selected(s, m, b) == Selected(s[..k], m[..k], b) + if m[k] == b then [s[k]] else []
  {
  }

  lemma {:induction false} SelectedUniform(s: seq<string>, b: bool)
    ensures Selected(s, Marks(b, |s|), b) == s
    ensures Selected(s, Marks(b, |s|), !b) == []
  {
    if s != [] {
      var k := |s| - 1;
      SelectedUniform(s[..k], b);
      assert Marks(b, |s|)[..k] == Marks(b, k);
      assert s == s[..k] + [s[k]];
    }
  }

  /** Taken elements first, the rest after: no element is lost or made up. */
  lemma {:induction false} SelectedPermutes(s: seq<string>, marks: seq<bool>)
    requires |s| == |marks|
    ensures multiset(Selected(s, marks, true) + Selected(s, marks, false)) == multiset(s)
  {
    if s != [] {
      var k := |s| - 1;
      SelectedPermutes(s[..k], marks[..k]);
      hide Selected;
      SelectedLast(s, marks, true);
      SelectedLast(s, marks, false);
      assert s == s[..k] + [s[k]];
      OneMore(Selected(s[..k], marks[..k], true), Selected(s[..k], marks[..k], false), s[k]);
    }
  }

  lemma OneMore(a: seq<string>, b: seq<string>, x: string)
    ensures multiset((a + [x]) + b) == multiset(a + b) + multiset{x} == multiset(a + (b + [x]))
    ensures a + [] == a && b + [] == b
  {
  }

  /** s with its block of elements [mid, hi) moved in front of [lo, mid). */
  ghost function Rotated(s: seq<string>, lo: int, mid: int, hi: int): (r: seq<string>)
    requires 0 <= lo <= mid <= hi <= |s|
    ensures |r| == |s|
  {
    s[..lo] + s[mid..hi] + s[lo..mid] + s[hi..]
  }

  /** s with two disjoint blocks of one length changing places. */
  ghost function Swapped(s: seq<string>, a: int, b: int, len: int): (r: seq<string>)
    requires 0 <= a <= a + len <= b <= b + len <= |s|
    ensures |r| == |s|
  {
    s[..a] + s[b..b + len] + s[a + len..b] + s[a..a + len] + s[b + len..]
  }

  lemma SwappedByElement(was: seq<string>, now: seq<string>, a: nat, b: nat, len: nat)
    requires a + len <= b && b + len <= |was| == |now|
    requires forall k :: a <= k < a + len ==> now[k] == was[k + (b - a)]
    requires forall k :: b <= k < b + len ==> now[k] == was[k - (b - a)]
    requires forall k :: 0 <= k < |was| && !(a <= k < a + len) && !(b <= k < b + len) ==> now[k] == was[k]
    ensures now == Swapped(was, a, b, len)
  {
  }

  method SwapBlocks(argv: array<string>, a: nat, b: nat, len: nat)
    requires a + len <= b && b + len <= argv.Length
    modifies argv
    ensures argv[..] == Swapped(old(argv[..]), a, b, len)
  {
    ghost var was := argv[..];
    var i := 0;
    while i < len
      invariant i <= len
      invariant forall k :: a <= k < a + i ==> argv[k] == was[k + (b - a)]
      invariant forall k :: b <= k < b + i ==> argv[k] == was[k - (b - a)]
      invariant forall k :: 0 <= k < argv.Length && !(a <= k < a + i) && !(b <= k < b + i) ==> argv[k] == was[k]
    {
      var tem := argv[a + i];
      argv[a + i] := argv[b + i];
      argv[b + i] := tem;
      i := i + 1;
    }
    SwappedByElement(was, argv[..], a, b, len);
  }

  /**
   The state of argv when the first |marks| elements of orig have been scanned:
   skipped elements fill [first, last), everything taken lies around them, and
   what is not scanned yet has not moved.
   */
  ghost predicate Layout(argv: seq<string>, orig: seq<string>, marks: seq<bool>, first: int, last: int) {
    var n := |marks|;
    && 0 <= first <= last <= n <= |argv| == |orig|
    && argv[n..] == orig[n..]
    && argv[first..last] == Selected(orig[..n], marks, false)
    && argv[..first] + argv[last..n] == Selected(orig[..n], marks, true)
  }

  lemma SelectedExtends(orig: seq<string>, marks: seq<bool>, b: bool, k: nat, n: nat)
    requires n == |marks| && n + k <= |orig|
    ensures Selected(orig[..n + k], marks + Marks(b, k), b) == Selected(orig[..n], marks, b) + orig[n..n + k]
    ensures Selected(orig[..n + k], marks + Marks(b, k), !b) == Selected(orig[..n], marks, !b)
  {
    SelectedConcat(orig[..n], marks, orig[n..n + k], Marks(b, k), b);
    SelectedConcat(orig[..n], marks, orig[n..n + k], Marks(b, k), !b);
    SelectedUniform(orig[n..n + k], b);
    assert orig[..n + k] == orig[..n] + orig[n..n + k];
  }

  lemma SameTails(argv: seq<string>, orig: seq<string>, n: nat, k: nat)
    requires n + k <= |argv| == |orig| && argv[n..] == orig[n..]
    ensures argv[n..n + k] == orig[n..n + k] && argv[n + k..] == orig[n + k..]
  {
  }

  lemma SplitAt(s: seq<string>, a: nat, b: nat, c: nat)
    requires a <= b <= c <= |s|
    ensures s[a..c] == s[a..b] + s[b..c]
  {
  }

  /** Taking elements does not move anything. */
  lemma LayoutTake(argv: seq<string>, orig: seq<string>, marks: seq<bool>, first: int, last: int, k: nat)
    requires Layout(argv, orig, marks, first, last) && |marks| + k <= |orig|
    ensures Layout(argv, orig, marks + Marks(true, k), first, last)
  {
    hide Selected;
    var n := |marks|;
    SelectedExtends(orig, marks, true, k, n);
    SameTails(argv, orig, n, k);
    SplitAt(argv, last, n, n + k);
    assert argv[..first] + (argv[last..n] + argv[n..n + k]) == (argv[..first] + argv[last..n]) + argv[n..n + k];
  }

  /** Skipping elements right behind the skipped ones makes one longer block. */
  lemma LayoutSkip(argv: seq<string>, orig: seq<string>, marks: seq<bool>, first: int, k: nat)
    requires Layout(argv, orig, marks, first, |marks|) && |marks| + k <= |orig|
    ensures Layout(argv, orig, marks + Marks(false, k), first, |marks| + k)
  {
    hide Selected;
    var n := |marks|;
    SelectedExtends(orig, marks, false, k, n);
    SameTails(argv, orig, n, k);
    SplitAt(argv, first, n, n + k);
    assert argv[n..n] == [] && argv[n + k..n + k] == [];
  }

  /** Rotation brings the skipped block up to the point reached. */
  lemma LayoutExchange(argv: seq<string>, orig: seq<string>, marks: seq<bool>, first: int, last: int)
    requires Layout(argv, orig, marks, first, last)
    ensures Layout(Rotated(argv, first, last, |marks|), orig, marks, first + (|marks| - last), |marks|)
  {
  }

  /** An empty block of skipped elements may stand anywhere. */
  lemma LayoutEmpty(argv: seq<string>, orig: seq<string>, marks: seq<bool>, first: int, to: int)
    requires Layout(argv, orig, marks, first, first) && 0 <= to <= |marks|
    ensures Layout(argv, orig, marks, to, to)
  {
    hide Selected;
    var n := |marks|;
    assert argv[first..first] == [] && argv[to..to] == [];
    assert argv[..first] + argv[first..n] == argv[..n];
    assert argv[..to] + argv[to..n] == argv[..n];
  }

  /** When all is scanned, argv is what was taken followed by what was skipped. */
  ghost predicate Sorted(argv: seq<string>, orig: seq<string>, marks: seq<bool>, boundary: int) {
    && |marks| == |orig|
    && argv == Selected(orig, marks, true) + Selected(orig, marks, false)
    && boundary == |Selected(orig, marks, true)|
  }

  lemma LayoutDone(argv: seq<string>, orig: seq<string>, marks: seq<bool>, first: int)
    requires |marks| == |orig| && Layout(argv, orig, marks, first, |orig|)
    ensures Sorted(argv, orig, marks, first)
  {
    var n := |marks|;
    assert orig[..n] == orig;
    assert argv == argv[..first] + argv[first..n];
    assert argv[n..n] == [];
  }

  /** The scan may stop early: all that is left counts as passed over. */
  lemma LayoutStop(argv: seq<string>, orig: seq<string>, marks: seq<bool>, first: int)
    requires Layout(argv, orig, marks, first, |marks|)
    ensures Sorted(argv, orig, marks + Marks(false, |orig| - |marks|), first)
  {
    var k := |orig| - |marks|;
    LayoutSkip(argv, orig, marks, first, k);
    LayoutDone(argv, orig, marks + Marks(false, k), first);
  }

  class GetoptData {
    const argv: array<string>
    var optind: int
    var optopt: int
    var optarg: Option<string>
    var initialized: bool
    var nextchar: Option<string>
    var ordering: Ordering
    var firstNonopt: int
    var lastNonopt: int
    var longind: int
    var flags: map<nat, int>
    /** The arguments as the caller first passed them. */
    ghost var orig: seq<string>
    /** Which of the elements before optind were taken, and which skipped. */
    ghost var marks: seq<bool>

    constructor (argv: array<string>)
      ensures this.argv == argv && optind == 1 && !initialized && flags == map[]
    {
      this.argv := argv;
      optind, optopt, optarg, initialized := 1, '?' as int, None, false;
      nextchar, ordering, firstNonopt, lastNonopt := None, Permute, 0, 0;
      longind, flags := 0, map[];
    }

    /** The text still to be scanned in the current element. */
    ghost function Rest(): string
      reads this
    {
      if nextchar.Some? then nextchar.value else ""
    }

    ghost predicate Fresh()
      reads this
    {
      (!initialized || optind == 0) && 0 <= optind <= argv.Length
    }

    /** Between two calls of one run. */
    ghost predicate Running(cfg: Config)
      reads this, argv
    {
      && initialized && 1 <= optind == |marks| && ordering == Mode(cfg)
      && Layout(argv[..], orig, marks, firstNonopt, lastNonopt)
      && (ordering != Permute ==> firstNonopt == lastNonopt)
      && Reading(argv[optind..], Rest())
    }

    /** Rotates [firstNonopt, lastNonopt) behind [lastNonopt, optind). */
    method Exchange()
      requires 0 <= firstNonopt <= lastNonopt <= optind <= argv.Length
      modifies argv, this`firstNonopt, this`lastNonopt
      ensures argv[..] == Rotated(old(argv[..]), old(firstNonopt), old(lastNonopt), optind)
      ensures lastNonopt == optind && lastNonopt - firstNonopt == old(lastNonopt - firstNonopt)
    {
      hide Rotated, Swapped;
      var bottom, middle, top := firstNonopt, lastNonopt, optind;
      ghost var goal, now := Rotated(argv[..], bottom, middle, top), argv[..];
      while top > middle && middle > bottom
        invariant 0 <= bottom <= middle <= top <= argv.Length
        invariant now == argv[..] && Rotated(now, bottom, middle, top) == goal
        modifies argv
        decreases top - bottom
      {
        var len := if top - middle > middle - bottom then middle - bottom else top - middle;
        if top - middle > middle - bottom {
          RotateLow(now, bottom, middle, top);
          SwapBlocks(argv, bottom, top - len, len);
          top := top - len;
        } else {
          RotateHigh(now, bottom, middle, top);
          SwapBlocks(argv, bottom, middle, len);
          bottom := bottom + len;
        }
        now := argv[..];
      }
      RotatedNot(now, bottom, middle, top);
      firstNonopt := firstNonopt + (optind - lastNonopt);
      lastNonopt := optind;
    }

    /** The field `__first_nonopt` and its fellows before the first element is looked at. */
    method Initialize(cfg: Config) returns (shorts: string)
      modifies this`firstNonopt, this`lastNonopt, this`nextchar, this`ordering
      ensures firstNonopt == lastNonopt == optind && nextchar == None && ordering == Mode(cfg)
      ensures var s := cfg.optstring;
              && (ordering == ReturnInOrder <==> s != "" && s[0] == '-')
              && (ordering == RequireOrder <==> (s != "" && s[0] == '+')
                                                || (cfg.posixlyCorrect && !(s != "" && s[0] == '-')))
      ensures shorts == Shorts(cfg, true)
    {
      firstNonopt, lastNonopt, nextchar := optind, optind, None;
      shorts := cfg.optstring;
      if shorts != "" && shorts[0] == '-' {
        ordering := ReturnInOrder;
        shorts := shorts[1..];
      } else if shorts != "" && shorts[0] == '+' {
        ordering := RequireOrder;
        shorts := shorts[1..];
      } else if cfg.posixlyCorrect {
        ordering := RequireOrder;
      } else {
        ordering := Permute;
      }
    }

    /** What a call has let the caller see. */
    twostate predicate Delivered(e: Event)
      reads this`optarg, this`optopt, this`longind, this`flags
    {
      && optarg == e.optarg
      && optopt == (if e.optopt.Some? then e.optopt.value else old(optopt))
      && longind == (if e.longind.Some? then e.longind.value else old(longind))
      && flags == (if e.flag.Some? then old(flags)[e.flag.value.0 := e.flag.value.1] else old(flags))
    }

    /** Looks a name up in the table, in one pass. */
    static method LookUp(opts: seq<LongOption>, name: string, strict: bool) returns (m: LongMatch)
      ensures m == MatchLong(opts, name, strict)
    {
      var pfound: Option<nat>, exact, ambig := None, false, false;
      var p := 0;
      while p < |opts|
        invariant 0 <= p <= |opts| && !exact
        invariant forall j :: 0 <= j < p ==> opts[j].name != name
        invariant pfound.None? ==> !ambig && forall j :: 0 <= j < p ==> !(name <= opts[j].name)
        invariant pfound.Some? ==>
          && pfound.value < p && name <= opts[pfound.value].name
          && (forall j :: 0 <= j < pfound.value ==> !(name <= opts[j].name))
          && (ambig <==> exists j :: pfound.value < j < p && name <= opts[j].name
                                     && (strict || !SameEffect(opts[pfound.value], opts[j])))
      {
        if name <= opts[p].name {
          if |name| == |opts[p].name| {
            pfound, exact := Some(p), true;
            break;
          } else if pfound.None? {
            pfound := Some(p);
          } else if strict || !SameEffect(opts[pfound.value], opts[p]) {
            ambig := true;
          }
        }
        p := p + 1;
      }
      ghost var e, f := ExactIndex(opts, name), PrefixIndex(opts, name);
      if ambig && !exact {
        m := Ambiguous;
      } else if pfound.Some? {
        m := Found(pfound.value);
      } else {
        m := NoMatch;
      }
    }

    static method NameEnd(s: string) returns (n: nat)
      ensures n == NameLength(s)
    {
      n := 0;
      while n < |s| && s[n] != '='
        invariant n <= |s| && n + NameLength(s[n..]) == NameLength(s)
      {
        n := n + 1;
      }
    }

    /** Takes long option k, whose name has been read and counted in optind. */
    method LongOption(cfg: Config, shorts: string, k: nat, tail: string, viaW: bool) returns (code: Code)
      requires cfg.longopts.Some? && k < |cfg.longopts.value|
      requires 0 <= optind <= argv.Length
      modifies this`optind, this`optarg, this`optopt, this`nextchar, this`longind, this`flags
      ensures var t := TakeLong(cfg.longopts.value, k, tail, shorts, old(argv[optind..]), 0, old(optarg), viaW);
              code == t.event.code && optind == old(optind) + t.used && Rest() == t.rest && Delivered(t.event)
    {
      var pfound := cfg.longopts.value[k];
      nextchar := Some("");
      if tail != "" {
        if pfound.hasArg != 0 {
          optarg := Some(tail[1..]);
        } else {
          if !viaW {
            optopt := pfound.val;
          }
          return QUESTION;
        }
      } else if pfound.hasArg == 1 {
        if optind < argv.Length {
          optarg := Some(argv[optind]);
          optind := optind + 1;
        } else {
          if !viaW {
            optopt := pfound.val;
          }
          return if shorts != "" && shorts[0] == ':' then COLON else QUESTION;
        }
      }
      longind := k;
      if pfound.flag.Some? {
        flags := flags[pfound.flag.value := pfound.val];
        return Ret(0);
      }
      return Ret(pfound.val);
    }

    /** The operand of -W; `nextchar` is what follows the W in its element. */
    method WOption(cfg: Config, shorts: string) returns (code: Code)
      requires cfg.longopts.Some? && nextchar.Some? && optarg == None
      requires 0 <= optind <= argv.Length && (nextchar.value != "" ==> optind < argv.Length)
      requires nextchar.value == "" ==> 0 < optind
      modifies this`optind, this`optarg, this`optopt, this`nextchar, this`longind, this`flags
      ensures var at := if old(Rest()) == "" then old(optind) - 1 else old(optind);
              var t := TakeW(cfg, shorts, old(argv[at..]), old(Rest()));
              code == t.event.code && optind == at + t.used && Rest() == t.rest && Delivered(t.event)
    {
      hide MatchLong, NameLength, TakeLong;
      ghost var at := if nextchar.value == "" then optind - 1 else optind;
      if nextchar.value != "" {
        optarg := nextchar;
        optind := optind + 1;
      } else if optind == argv.Length {
        optopt := 'W' as int;
        return if shorts != "" && shorts[0] == ':' then COLON else QUESTION;
      } else {
        optarg := Some(argv[optind]);
        optind := optind + 1;
      }
      ghost var args, rest, used := argv[at..], Rest(), optind - at;
      assert args[used..] == argv[optind..];
      assert optarg.value == if rest != "" then rest else args[1];
      var n := NameEnd(optarg.value);
      var m := LookUp(cfg.longopts.value, optarg.value[..n], true);
      match m {
        case Ambiguous =>
          nextchar := Some("");
          optind := optind + 1;
          return QUESTION;
        case Found(k) =>
          TakeLongShifts(cfg.longopts.value, k, optarg.value[n..], shorts, args[used..], used, optarg, true);
          code := LongOption(cfg, shorts, k, optarg.value[n..], true);
        case NoMatch =>
          nextchar := None;
          return Ret('W' as int);
      }
    }

    /** The short option character at the front of `nextchar`. */
    method ShortOption(cfg: Config, shorts: string) returns (code: Code)
      requires 0 <= optind < argv.Length && Rest() != "" && optarg == None
      requires LongForm(shorts) ==> cfg.longopts.Some?
      modifies this`optind, this`optarg, this`optopt, this`nextchar, this`longind, this`flags
      ensures var t := TakeShort(cfg, shorts, old(argv[optind..]), old(Rest()));
              code == t.event.code && optind == old(optind) + t.used && Rest() == t.rest && Delivered(t.event)
    {
      hide TakeW, StrChr;
      var c := nextchar.value[0];
      var more := nextchar.value[1..];
      nextchar := Some(more);
      var temp := StrChr(shorts, c);
      if more == "" {
        optind := optind + 1;
      }
      if temp.None? || c == ':' {
        optopt := c as int;
        return QUESTION;
      }
      assert temp.value[0] == c by { StrChrStarts(shorts, c); }
      if temp.value[0] == 'W' && |temp.value| > 1 && temp.value[1] == ';' {
        code := WOption(cfg, shorts);
        return;
      }
      if |temp.value| > 1 && temp.value[1] == ':' {
        if |temp.value| > 2 && temp.value[2] == ':' {
          if more != "" {
            optarg := Some(more);
            optind := optind + 1;
          } else {
            optarg := None;
          }
        } else if more != "" {
          optarg := Some(more);
          optind := optind + 1;
        } else if optind == argv.Length {
          optopt := c as int;
          c := if shorts != "" && shorts[0] == ':' then ':' else '?';
        } else {
          optarg := Some(argv[optind]);
          optind := optind + 1;
        }
        nextchar := None;
      }
      return Ret(c as int);
    }

    /** Decodes one option of the element at optind. */
    method Decode(cfg: Config, shorts: string) returns (code: Code)
      requires 0 <= optind < argv.Length && !Nonoption(argv[optind]) && Rest() != "" && optarg == None
      requires LongForm(shorts) ==> cfg.longopts.Some?
      modifies this`optind, this`optarg, this`optopt, this`nextchar, this`longind, this`flags
      ensures var t := Take(cfg, shorts, old(argv[optind..]), old(Rest()));
              code == t.event.code && optind == old(optind) + t.used && Rest() == t.rest && Delivered(t.event)
    {
      hide MatchLong, NameLength, TakeLong, TakeShort, StrChr;
      var element := argv[optind];
      if cfg.longopts.Some? && (element[1] == '-'
          || (cfg.longOnly && (|element| > 2 || StrChr(shorts, element[1]).None?))) {
        var n := NameEnd(nextchar.value);
        var m := LookUp(cfg.longopts.value, nextchar.value[..n], cfg.longOnly);
        match m {
          case Ambiguous =>
            nextchar, optind, optopt := Some(""), optind + 1, 0;
            return QUESTION;
          case Found(k) =>
            assert argv[optind..][1..] == argv[optind + 1..];
            TakeLongShifts(cfg.longopts.value, k, nextchar.value[n..], shorts, argv[optind + 1..], 1, None, false);
            optind := optind + 1;
            code := LongOption(cfg, shorts, k, nextchar.value[n..], false);
            return;
          case NoMatch =>
            if !cfg.longOnly || element[1] == '-' || StrChr(shorts, nextchar.value[0]).None? {
              nextchar, optind, optopt := Some(""), optind + 1, 0;
              return QUESTION;
            }
        }
      }
      code := ShortOption(cfg, shorts);
    }

    /** Moves what was skipped before up to here. */
    method Regroup()
      requires optind == |marks| && Layout(argv[..], orig, marks, firstNonopt, lastNonopt)
      modifies argv, this`firstNonopt, this`lastNonopt
      ensures Layout(argv[..], orig, marks, firstNonopt, optind) && argv[optind..] == old(argv[optind..])
      ensures old(firstNonopt == lastNonopt) ==> argv[..] == old(argv[..]) && firstNonopt == optind
    {
      hide Layout, Rotated, Selected;
      LayoutBounds(argv[..], orig, marks, firstNonopt, lastNonopt);
      if firstNonopt != lastNonopt && lastNonopt != optind {
        LayoutExchange(argv[..], orig, marks, firstNonopt, lastNonopt);
        RotatedBehind(argv[..], firstNonopt, lastNonopt, optind);
        Exchange();
      } else if lastNonopt != optind {
        LayoutEmpty(argv[..], orig, marks, firstNonopt, optind);
        firstNonopt := optind;
      }
    }

    method PassOver()
      requires 0 <= optind <= argv.Length
      modifies this`optind
      ensures optind == old(optind) + Skipped(Permute, argv[old(optind)..])
    {
      ghost var here := optind;
      while optind < argv.Length && Nonoption(argv[optind])
        invariant here <= optind <= argv.Length
        invariant optind + Skipped(Permute, argv[optind..]) == here + Skipped(Permute, argv[here..])
      {
        assert argv[optind..][1..] == argv[optind + 1..];
        optind := optind + 1;
      }
    }

    /** In the permuting order: regroups, then skips any non-options. */
    method Permuted()
      requires optind == |marks| && Layout(argv[..], orig, marks, firstNonopt, lastNonopt)
      modifies argv, this`firstNonopt, this`lastNonopt, this`optind, this`marks
      ensures optind == old(optind) + Skipped(Permute, old(argv[optind..])) && optind == |marks|
      ensures marks == old(marks) + Marks(false, optind - old(optind))
      ensures Layout(argv[..], orig, marks, firstNonopt, lastNonopt) && lastNonopt == optind
    {
      hide Layout, Selected, Skipped;
      LayoutBounds(argv[..], orig, marks, firstNonopt, lastNonopt);
      Regroup();
      PassOver();
      lastNonopt := optind;
      LayoutSkip(argv[..], orig, marks, firstNonopt, optind - |marks|);
      marks := marks + Marks(false, optind - |marks|);
    }

    /** The element `--`: taken like an option; all that follows counts as skipped. */
    method EndOptions()
      requires optind == |marks| < argv.Length && Layout(argv[..], orig, marks, firstNonopt, lastNonopt)
      requires firstNonopt == lastNonopt || lastNonopt == optind
      modifies argv, this`firstNonopt, this`lastNonopt, this`optind, this`marks
      ensures optind == argv.Length
      ensures marks == old(marks) + Marks(true, 1) + Marks(false, argv.Length - old(optind) - 1)
      ensures Layout(argv[..], orig, marks, firstNonopt, lastNonopt) && lastNonopt == optind
      ensures old(firstNonopt == lastNonopt) ==> argv[..] == old(argv[..])
    {
      hide Layout, Rotated, Selected;
      LayoutBounds(argv[..], orig, marks, firstNonopt, lastNonopt);
      LayoutTake(argv[..], orig, marks, firstNonopt, lastNonopt, 1);
      marks := marks + Marks(true, 1);
      optind := optind + 1;
      LayoutBounds(argv[..], orig, marks, firstNonopt, lastNonopt);
      if firstNonopt != lastNonopt && lastNonopt != optind {
        LayoutExchange(argv[..], orig, marks, firstNonopt, lastNonopt);
        RotatedBehind(argv[..], firstNonopt, lastNonopt, optind);
        Exchange();
      } else if firstNonopt == lastNonopt {
        LayoutEmpty(argv[..], orig, marks, firstNonopt, optind);
        firstNonopt := optind;
      }
      LayoutSkip(argv[..], orig, marks, firstNonopt, argv.Length - optind);
      marks := marks + Marks(false, argv.Length - optind);
      lastNonopt := argv.Length;
      optind := argv.Length;
    }

    /** All is scanned: optind goes back to the first skipped element, if there is one. */
    method Finish()
      requires optind == |marks| == argv.Length && Layout(argv[..], orig, marks, firstNonopt, lastNonopt)
      requires firstNonopt == lastNonopt || lastNonopt == optind
      modifies this`optind
      ensures Sorted(argv[..], orig, marks, optind)
    {
      hide Layout, Rotated, Selected, Sorted;
      LayoutBounds(argv[..], orig, marks, firstNonopt, lastNonopt);
      if firstNonopt != lastNonopt {
        LayoutDone(argv[..], orig, marks, firstNonopt);
        optind := firstNonopt;
      } else {
        LayoutEmpty(argv[..], orig, marks, firstNonopt, optind);
        LayoutDone(argv[..], orig, marks, optind);
      }
    }

    /** What skipping leaves, `args` having begun at `from`. */
    ghost predicate Skipping(args: seq<string>, from: int, was: seq<bool>)
      reads this, argv
    {
      var j := Skipped(ordering, args);
      if j == |args| || args[j] == "--" then
        && optind == argv.Length
        && marks == was + Stop(j, if j < |args| then 1 else 0, if j < |args| then |args| - j - 1 else 0).marks
      else
        && optind == from + j && 0 <= optind <= argv.Length
        && marks == was + Marks(false, j) && argv[optind..] == args[j..]
        && (ordering != Permute ==> firstNonopt == lastNonopt)
    }

    /** Skips non-options, if they may be permuted, and takes `--`. */
    method Skip()
      requires optind == |marks| && Layout(argv[..], orig, marks, firstNonopt, lastNonopt)
      requires ordering != Permute ==> firstNonopt == lastNonopt
      modifies argv, this`firstNonopt, this`lastNonopt, this`optind, this`marks
      ensures optind == |marks| && Layout(argv[..], orig, marks, firstNonopt, lastNonopt)
      ensures firstNonopt == lastNonopt || lastNonopt == optind
      ensures Skipping(old(argv[optind..]), old(optind), old(marks)) && optind >= old(optind)
      ensures ordering != Permute ==> argv[..] == old(argv[..])
    {
      hide Layout, Rotated, Selected, Skipped;
      LayoutBounds(argv[..], orig, marks, firstNonopt, lastNonopt);
      ghost var args, was := argv[optind..], marks;
      if ordering == Permute {
        Permuted();
        LayoutBounds(argv[..], orig, marks, firstNonopt, lastNonopt);
      }
      ghost var j := optind - |was|;
      assert argv[optind..] == args[j..] by { assert argv[optind..] == orig[optind..]; assert args == orig[|was|..]; }
      assert marks == was + Marks(false, j);
      if optind != argv.Length && argv[optind] == "--" {
        EndOptions();
        assert marks == was + Stop(j, 1, |args| - j - 1).marks;
      } else if optind == argv.Length {
        assert marks == was + Stop(j, 0, 0).marks;
      }
    }

    /** Goes on to the next element: either it is an option to decode, or the call is over. */
    method Advance(cfg: Config, ghost s: Scan, ghost first: bool) returns (over: Option<Code>)
      requires Usable(cfg) && Running(cfg) && Rest() == "" && optarg == None
      requires s == GetoptScan.Next(cfg, first, argv[optind..], "")
      modifies argv, this`firstNonopt, this`lastNonopt, this`optind, this`marks, this`nextchar, this`optarg
      ensures over.Some? ==> s.event == Event(over.value, optarg, None, None, None) && Stepped(cfg, s, old(marks))
      ensures over.None? ==> optarg == None && Rest() != "" && Underway(cfg, s, first, old(marks))
      ensures ordering != Permute ==> argv[..] == old(argv[..])
    {
      hide Layout, Rotated, Selected, Sorted, Skipped, LongForm, Underway, Marks, GetoptScan.Next, Stepped, Skipping,
           Reading, Nonoption;
      LayoutBounds(argv[..], orig, marks, firstNonopt, lastNonopt);
      ghost var args, was := argv[optind..], marks;
      Skip();
      over := BeginElement(cfg, s, first, was, args);
    }

    /** Either the scan is over, or the element behind those skipped is an operand to hand over or an option. */
    method BeginElement(cfg: Config, ghost s: Scan, ghost first: bool, ghost was: seq<bool>, ghost args: seq<string>)
      returns (over: Option<Code>)
      requires Usable(cfg) && initialized && optind >= 1 && ordering == Mode(cfg) && Rest() == "" && optarg == None
      requires s == GetoptScan.Next(cfg, first, args, "") && |was| + |args| == argv.Length
      requires optind == |marks| && Layout(argv[..], orig, marks, firstNonopt, lastNonopt)
      requires firstNonopt == lastNonopt || lastNonopt == optind
      requires Skipping(args, |was|, was)
      modifies this`optind, this`marks, this`nextchar, this`optarg
      ensures over.Some? ==> s.event == Event(over.value, optarg, None, None, None) && Stepped(cfg, s, was)
      ensures over.None? ==> optarg == None && Rest() != "" && Underway(cfg, s, first, was)
    {
      hide Layout, Rotated, Selected, Sorted, Skipped, Take, TakeFrom, LongForm, Shorts, Underway, Marks, Opened,
           GetoptScan.Next, Stepped;
      NextCases(cfg, first, args);
      LayoutBounds(argv[..], orig, marks, firstNonopt, lastNonopt);
      if optind == argv.Length {
        assert marks == was + s.marks && s.event.code.End?;
        Finish();
        StepOver(cfg, s, was);
        over := Some(End);
      } else if Nonoption(argv[optind]) {
        assert ordering != Permute && marks == was + [] == was by { assert Marks(false, 0) == []; }
        over := NonOption(cfg);
        StepOver(cfg, s, was);
      } else {
        OpenElement(cfg, s, first, was, args);
        over := None;
      }
    }

    /** Skips the initial dashes of an option element. */
    method OpenElement(cfg: Config, ghost s: Scan, ghost first: bool, ghost was: seq<bool>, ghost args: seq<string>)
      requires Usable(cfg) && Running(cfg) && optind < argv.Length && !Nonoption(argv[optind]) && argv[optind] != "--"
      requires s == GetoptScan.Next(cfg, first, args, "") && |was| <= optind && optind - |was| <= |args|
      requires optind - |was| == Skipped(Mode(cfg), args) && argv[optind..] == args[optind - |was|..]
      requires marks == was + Marks(false, optind - |was|)
      modifies this`nextchar
      ensures Rest() != "" && Underway(cfg, s, first, was)
    {
      hide Layout, Rotated, Selected, Skipped, Take, TakeFrom, LongForm, Shorts, GetoptScan.Next, Underway, Marks;
      ghost var here := argv[optind..];
      assert here[0] == argv[optind];
      OpenedScan(cfg, first, args, here);
      nextchar := Some(if cfg.longopts.Some? && argv[optind][1] == '-' then argv[optind][2..] else argv[optind][1..]);
      ghost var s0 := TakeFrom(cfg, Shorts(cfg, first), here, Rest(), 0);
      Assoc(was, Marks(false, optind - |was|), s0.marks);
      UnderwayHere(cfg, s, first, was);
    }

    lemma UnderwayHere(cfg: Config, s: Scan, first: bool, was: seq<bool>)
      requires Usable(cfg) && Running(cfg) && Rest() != "" && |was| <= optind
      requires optind < argv.Length && !Nonoption(argv[..][optind])
      requires LongForm(Shorts(cfg, first)) == LongForm(cfg.optstring)
      requires var s0 := TakeFrom(cfg, Shorts(cfg, first), argv[optind..], Rest(), 0);
               && s0.event == s.event && s0.rest == s.rest
               && optind + s0.used == |was| + s.used && marks + s0.marks == was + s.marks
      ensures Underway(cfg, s, first, was)
    {
      hide Running, LongForm, Shorts, Take, TakeFrom, Rest;
    }

    /** A non-option that is not permuted: it stops the scan or is handed over. */
    method NonOption(cfg: Config) returns (over: Option<Code>)
      requires optind == |marks| < argv.Length && initialized && ordering == Mode(cfg) && Rest() == "" && optind >= 1
      requires Layout(argv[..], orig, marks, firstNonopt, lastNonopt) && firstNonopt == lastNonopt
      modifies this`optind, this`marks, this`optarg
      ensures ordering == RequireOrder ==>
        && over == Some(End) && optarg == old(optarg)
        && marks == old(marks) + Marks(false, argv.Length - |old(marks)|) && Sorted(argv[..], orig, marks, optind)
      ensures ordering != RequireOrder ==>
        && over == Some(Ret(1)) && optarg == Some(argv[|old(marks)|])
        && marks == old(marks) + Marks(true, 1) && optind == |marks| && Running(cfg)
    {
      hide Layout, Rotated, Selected, Sorted;
      LayoutBounds(argv[..], orig, marks, firstNonopt, lastNonopt);
      if ordering == RequireOrder {
        LayoutEmpty(argv[..], orig, marks, firstNonopt, optind);
        LayoutStop(argv[..], orig, marks, optind);
        marks := marks + Marks(false, argv.Length - optind);
        return Some(End);
      }
      LayoutTake(argv[..], orig, marks, firstNonopt, lastNonopt, 1);
      marks := marks + Marks(true, 1);
      optarg := Some(argv[optind]);
      optind := optind + 1;
      return Some(Ret(1));
    }

    /** The state a call leaves: as `GetoptScan.Next` says, whatever the order of argv by now. */
    ghost predicate Stepped(cfg: Config, s: Scan, was: seq<bool>)
      reads this, argv
    {
      && marks == was + s.marks
      && if s.event.code.End? then Sorted(argv[..], orig, marks, optind)
         else if |was| + s.used <= argv.Length then Running(cfg) && optind == |was| + s.used && Rest() == s.rest
         else optind == argv.Length + 1 && multiset(argv[..]) == multiset(orig)
    }

    lemma StepOver(cfg: Config, s: Scan, was: seq<bool>)
      requires marks == was + s.marks
      requires s.event.code.End? ==> Sorted(argv[..], orig, marks, optind)
      requires !s.event.code.End? ==>
                 |was| + s.used <= argv.Length && Running(cfg) && optind == |was| + s.used && Rest() == s.rest
      ensures Stepped(cfg, s, was)
    {
    }

    /** Skipping is done; decoding the current element completes the call. */
    ghost predicate Underway(cfg: Config, s: Scan, first: bool, was: seq<bool>)
      requires Usable(cfg)
      reads this, argv
    {
      && Running(cfg) && Rest() != "" && |was| <= optind
      && LongForm(Shorts(cfg, first)) == LongForm(cfg.optstring)
      && var s0 := TakeFrom(cfg, Shorts(cfg, first), argv[optind..], Rest(), 0);
         && s0.event == s.event && s0.rest == s.rest
         && optind + s0.used == |was| + s.used && marks + s0.marks == was + s.marks
    }

    /** Decodes one option of the current element. */
    method Step(cfg: Config, shorts: string) returns (code: Code)
      requires LongForm(shorts) ==> cfg.longopts.Some?
      requires Running(cfg) && optarg == None && Rest() != ""
      modifies this`optind, this`optarg, this`optopt, this`nextchar, this`longind, this`flags, this`marks
      ensures var s := TakeFrom(cfg, shorts, old(argv[optind..]), old(Rest()), 0);
              code == s.event.code && Delivered(s.event) && Stepped(cfg, s, old(marks))
    {
      hide Take, TakeFrom, Rotated, Selected, Layout;
      LayoutBounds(argv[..], orig, marks, firstNonopt, lastNonopt);
      ghost var args, was, rest, at := argv[optind..], marks, Rest(), optind;
      TakeFromHere(cfg, shorts, args, rest);
      assert args[0] == argv[optind] && !Nonoption(argv[optind]);
      hide Reading, Delivered;
      code := Decode(cfg, shorts);
      ghost var k := if optind <= argv.Length then optind - at else argv.Length - at;
      LayoutTake(argv[..], orig, marks, firstNonopt, lastNonopt, k);
      marks := marks + Marks(true, k);
      if optind <= argv.Length {
        assert argv[optind..] == args[optind - at..];
      } else {
        LayoutKeeps(argv[..], orig, marks, firstNonopt, lastNonopt);
      }
    }

    /** The first call of a run: sets the scan up. */
    method Start(cfg: Config) returns (shorts: string)
      requires Fresh() && argv.Length >= 1
      modifies this
      ensures Running(cfg) && Rest() == "" && optind == (if old(optind) == 0 then 1 else old(optind))
      ensures orig == argv[..] && marks == Marks(true, optind) && shorts == Shorts(cfg, true)
      ensures optarg == old(optarg) && optopt == old(optopt) && longind == old(longind) && flags == old(flags)
    {
      if optind == 0 {
        optind := 1;
      }
      shorts := Initialize(cfg);
      initialized := true;
      orig, marks := argv[..], Marks(true, optind);
      LayoutStart(orig, optind);
    }

    /** One call of getopt. */
    method Next(cfg: Config) returns (code: Code)
      requires Usable(cfg) && argv.Length >= 1
      requires Fresh() || Running(cfg)
      modifies this, argv
      ensures var first := old(Fresh());
              var at := if !first then old(optind) else if old(optind) == 0 then 1 else old(optind);
              var s := GetoptScan.Next(cfg, first, old(argv[at..]), if first then "" else old(Rest()));
              && code == s.event.code && Delivered(s.event)
              && Stepped(cfg, s, if first then Marks(true, at) else old(marks))
      ensures orig == if old(Fresh()) then old(argv[..]) else old(orig)
      ensures Mode(cfg) != Permute ==> argv[..] == old(argv[..])
    {
      hide Stepped, GetoptScan.Next, Layout, Sorted, Mode, Marks;
      optarg := None;
      var shorts, first := cfg.optstring, optind == 0 || !initialized;
      if first {
        shorts := Start(cfg);
      }
      code := Call(cfg, shorts, first);
    }

    method Call(cfg: Config, shorts: string, ghost first: bool) returns (code: Code)
      requires Usable(cfg) && Running(cfg) && optarg == None && shorts == Shorts(cfg, first)
      modifies argv, this`firstNonopt, this`lastNonopt, this`optind, this`marks, this`nextchar
      modifies this`optarg, this`optopt, this`longind, this`flags
      ensures var s := GetoptScan.Next(cfg, first, old(argv[optind..]), old(Rest()));
              && code == s.event.code && Delivered(s.event) && Stepped(cfg, s, old(marks))
      ensures ordering != Permute ==> argv[..] == old(argv[..])
    {
      hide TakeFrom, Layout, Sorted, Rotated, Selected, Skipped, Shorts;
      LongFormKept(cfg, first);
      LayoutBounds(argv[..], orig, marks, firstNonopt, lastNonopt);
      ghost var s := GetoptScan.Next(cfg, first, argv[optind..], Rest());
      if nextchar == None || nextchar.value == "" {
        hide GetoptScan.Next;
        var over := Advance(cfg, s, first);
        if over.Some? {
          return over.value;
        }
        code := Step(cfg, shorts);
      } else {
        code := Step(cfg, shorts);
      }
    }
  }

  /** A call at the start of an element. */
  lemma NextCases(cfg: Config, first: bool, args: seq<string>)
    requires Usable(cfg)
    ensures LongForm(Shorts(cfg, first)) ==> cfg.longopts.Some?
    ensures var j := Skipped(Mode(cfg), args);
            GetoptScan.Next(cfg, first, args, "") == (
              if j == |args| then Stop(j, 0, 0)
              else if args[j] == "--" then Stop(j, 1, |args| - j - 1)
              else if !Nonoption(args[j]) then TakeFrom(cfg, Shorts(cfg, first), args, Opened(cfg, args[j]), j)
              else if Mode(cfg) == RequireOrder then Stop(j, 0, |args|)
              else Scan(Event(Ret(1), Some(args[0]), None, None, None), Marks(true, 1), 1, ""))
  {
    hide Take, TakeFrom, Shorts, Stop, Skipped, Opened, Nonoption, Marks, LongForm, Mode, Reading;
    LongFormKept(cfg, first);
  }

  lemma LayoutStart(argv: seq<string>, n: nat)
    requires n <= |argv|
    ensures Layout(argv, argv, Marks(true, n), n, n)
  {
    SelectedUniform(argv[..n], true);
    assert argv[n..n] == [] && argv[..n] + [] == argv[..n];
  }

  lemma TakeFromShifts(cfg: Config, shorts: string, args: seq<string>, rest: string, j: nat)
    requires LongForm(shorts) ==> cfg.longopts.Some?
    requires j < |args| && !Nonoption(args[j]) && rest != "" && |rest| < |args[j]|
    ensures var s, s0 := TakeFrom(cfg, shorts, args, rest, j), TakeFrom(cfg, shorts, args[j..], rest, 0);
            s.event == s0.event && s.used == j + s0.used && s.rest == s0.rest && s.marks == Marks(false, j) + s0.marks
  {
  }

  /** The scan of an element that begins with a dash, behind those passed over. */
  lemma OpenedScan(cfg: Config, first: bool, args: seq<string>, here: seq<string>)
    requires Usable(cfg) && |here| > 0 && !Nonoption(here[0]) && here[0] != "--"
    requires var j := Skipped(Mode(cfg), args); j < |args| && here == args[j..]
    ensures LongForm(Shorts(cfg, first)) == LongForm(cfg.optstring)
    ensures var s, j := GetoptScan.Next(cfg, first, args, ""), Skipped(Mode(cfg), args);
            var s0 := TakeFrom(cfg, Shorts(cfg, first), here, Opened(cfg, here[0]), 0);
            && s.event == s0.event && s.used == j + s0.used && s.rest == s0.rest
            && s.marks == Marks(false, j) + s0.marks
  {
    NextOpens(cfg, first, args);
    hide *;
    var j := Skipped(Mode(cfg), args);
    assert args[j] == here[0];
    TakeFromShifts(cfg, Shorts(cfg, first), args, Opened(cfg, here[0]), j);
  }

  lemma NextOpens(cfg: Config, first: bool, args: seq<string>)
    requires Usable(cfg)
    ensures LongForm(Shorts(cfg, first)) == LongForm(cfg.optstring)
    ensures LongForm(Shorts(cfg, first)) ==> cfg.longopts.Some?
    ensures var j := Skipped(Mode(cfg), args);
            j < |args| && args[j] != "--" && !Nonoption(args[j]) ==>
              GetoptScan.Next(cfg, first, args, "") == TakeFrom(cfg, Shorts(cfg, first), args, Opened(cfg, args[j]), j)
  {
    LongFormKept(cfg, first);
    hide TakeFrom, Shorts, LongForm, Opened, Nonoption;
  }

  lemma TakeFromHere(cfg: Config, shorts: string, args: seq<string>, rest: string)
    requires LongForm(shorts) ==> cfg.longopts.Some?
    requires Reading(args, rest) && rest != ""
    ensures var s, t := TakeFrom(cfg, shorts, args, rest, 0), Take(cfg, shorts, args, rest);
            s == Scan(t.event, Marks(true, if t.used <= |args| then t.used else |args|), t.used, t.rest)
  {
  }

  /** Whatever has been scanned, argv still holds the caller's arguments. */
  lemma LayoutKeeps(argv: seq<string>, orig: seq<string>, marks: seq<bool>, first: int, last: int)
    requires Layout(argv, orig, marks, first, last)
    ensures multiset(argv) == multiset(orig)
  {
    hide Selected;
    var n := |marks|;
    SelectedPermutes(orig[..n], marks);
    FourParts(argv, first, last, n);
    FourParts(orig, 0, 0, n);
    assert orig[..0] + orig[0..n] == orig[..n] && orig[0..0] == [];
  }

  lemma FourParts(s: seq<string>, a: nat, b: nat, n: nat)
    requires a <= b <= n <= |s|
    ensures multiset(s) == multiset(s[..a] + s[b..n]) + multiset(s[a..b]) + multiset(s[n..])
  {
    assert s == s[..a] + s[a..b] + s[b..n] + s[n..];
  }

  lemma LayoutBounds(argv: seq<string>, orig: seq<string>, marks: seq<bool>, first: int, last: int)
    requires Layout(argv, orig, marks, first, last)
    ensures 0 <= first <= last <= |marks| <= |argv| == |orig| && argv[|marks|..] == orig[|marks|..]
  {
  }

  lemma RotatedBehind(s: seq<string>, lo: nat, mid: nat, hi: nat)
    requires lo <= mid <= hi <= |s|
    ensures Rotated(s, lo, mid, hi)[hi..] == s[hi..]
  {
  }

  lemma TakeLongShifts(opts: seq<LongOption>, k: nat, tail: string, shorts: string, args: seq<string>,
                       used: nat, operand: Option<string>, viaW: bool)
    requires k < |opts|
    ensures var t, t0 := TakeLong(opts, k, tail, shorts, args, used, operand, viaW),
                         TakeLong(opts, k, tail, shorts, args, 0, operand, viaW);
            t.event == t0.event && t.used == t0.used + used && t.rest == t0.rest
  {
  }

  lemma StrChrStarts(s: string, c: char)
    ensures var at := StrChr(s, c); at.Some? ==> at.value != "" && at.value[0] == c
  {
  }

  lemma RotatedNot(s: seq<string>, lo: nat, mid: nat, hi: nat)
    requires lo <= mid <= hi <= |s| && (lo == mid || mid == hi)
    ensures Rotated(s, lo, mid, hi) == s
  {
  }

  /** Where the element at i of a rotated sequence comes from. */
  function RotatedFrom(lo: int, mid: int, hi: int, i: int): int {
    if i < lo || hi <= i then i else if i - lo < hi - mid then i - lo + mid else i - (hi - mid)
  }

  lemma RotatedAt(s: seq<string>, lo: nat, mid: nat, hi: nat, i: nat)
    requires lo <= mid <= hi <= |s| && i < |s|
    ensures 0 <= RotatedFrom(lo, mid, hi, i) < |s| && Rotated(s, lo, mid, hi)[i] == s[RotatedFrom(lo, mid, hi, i)]
  {
  }

  /** Where the element at i of a sequence with two blocks swapped comes from. */
  function SwappedFrom(a: int, b: int, len: int, i: int): int {
    if a <= i < a + len then i - a + b else if b <= i < b + len then i - b + a else i
  }

  lemma SwappedAt(s: seq<string>, a: nat, b: nat, len: nat, i: nat)
    requires a + len <= b && b + len <= |s| && i < |s|
    ensures 0 <= SwappedFrom(a, b, len, i) < |s| && Swapped(s, a, b, len)[i] == s[SwappedFrom(a, b, len, i)]
  {
  }

  /** Swapping a short bottom block with the end of the top block leaves the rotation of the rest to do. */
  lemma RotateLow(was: seq<string>, bottom: nat, middle: nat, top: nat)
    requires bottom <= middle <= top <= |was| && middle - bottom < top - middle
    ensures var cut := top - (middle - bottom);
            Rotated(Swapped(was, bottom, cut, middle - bottom), bottom, middle, cut)
                    == Rotated(was, bottom, middle, top)
  {
    hide Rotated, Swapped;
    var cut := top - (middle - bottom);
    var now := Swapped(was, bottom, cut, middle - bottom);
    forall i: nat | i < |was|
      ensures Rotated(now, bottom, middle, cut)[i] == Rotated(was, bottom, middle, top)[i]
    {
      RotatedAt(was, bottom, middle, top, i);
      RotatedAt(now, bottom, middle, cut, i);
      SwappedAt(was, bottom, cut, middle - bottom, RotatedFrom(bottom, middle, cut, i));
    }
  }

  lemma RotateHigh(was: seq<string>, bottom: nat, middle: nat, top: nat)
    requires bottom <= middle <= top <= |was| && top - middle <= middle - bottom
    ensures var cut := bottom + (top - middle);
            Rotated(Swapped(was, bottom, middle, top - middle), cut, middle, top) == Rotated(was, bottom, middle, top)
  {
    hide Rotated, Swapped;
    var cut := bottom + (top - middle);
    var now := Swapped(was, bottom, middle, top - middle);
    forall i: nat | i < |was|
      ensures Rotated(now, cut, middle, top)[i] == Rotated(was, bottom, middle, top)[i]
    {
      RotatedAt(was, bottom, middle, top, i);
      RotatedAt(now, cut, middle, top, i);
      SwappedAt(was, bottom, middle, top - middle, RotatedFrom(cut, middle, top, i));
    }
  }
}
