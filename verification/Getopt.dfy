/** The option parser: a permuting in-place parser refines a left-to-right scan. */
module Getopt {
  import opened Common
  import Rotation

  datatype HasArg = NoArgument | RequiredArgument | OptionalArgument

  datatype LongOption = LongOption(name: string, hasArg: HasArg, hasFlag: bool, val: int)

  /** The caller's option string and long options, and the environment's POSIXLY_CORRECT. */
  datatype Config = Config(options: string, longs: seq<LongOption>, posixly: bool)
  {
    predicate IgnoreFirst() { options != "" && (options[0] == '-' || options[0] == '+') }
    predicate Permute() { !posixly && !IgnoreFirst() }
    predicate InOrder() { !posixly && options != "" && options[0] == '-' }
    function Letters(): string { if IgnoreFirst() then options[1..] else options }
    function BadArg(): int {
      if (IgnoreFirst() && At(options, 1) == ':') || At(options, 0) == ':' then ':' as int else '?' as int
    }
  }

  const BADCH: int := '?' as int
  const INORDER: int := 1

  function At(s: string, i: nat): char { if i < |s| then s[i] else '\0' }

  /** What one call reports: the end of the options, or a return value with optarg,
      the value stored in optopt and the index of the long option, if any. */
  datatype Event =
    | Done
    | Result(value: int, optarg: Option<string>, optopt: Option<int>, index: Option<nat>)
  {
    function ReturnValue(): int { if Done? then -1 else value }
  }

  function Plain(value: int, optarg: Option<string>): Event { Result(value, optarg, None, None) }
  function Error(value: int, optopt: int): Event { Result(value, None, Some(optopt), None) }

  /** The arguments as the caller will see them: those parsed as options so far, the
      non-options skipped so far and those not yet read, with the rest of the current option cluster. */
  datatype View = View(opts: seq<string>, skipped: seq<string>, unread: seq<string>, place: string)
  {
    predicate Valid() { place != "" ==> unread != [] }

    /** Move the first n unread arguments to the options. */
    function Take(n: nat): View
      requires n <= |unread|
    {
      View(opts + unread[..n], skipped, unread[n..], "")
    }

    /** Skip the first unread argument. */
    function Skip(): View
      requires unread != []
    {
      View(opts, skipped + [unread[0]], unread[1..], "")
    }

    /** Step over one letter, leaving the argument when it was the last. */
    function NextLetter(): View
      requires Valid() && place != ""
    {
      if |place| == 1 then Take(1) else this.(place := place[1..])
    }

    /** The end of a run: skipped arguments come right after the options. */
    function Settled(): View { View(opts, [], skipped + unread, place) }
  }

  // ----- long option lookup -----

  datatype Match = NoMatch | Ambiguous | Found(index: nat)

  /** Index of the first long option named exactly so, or their number. */
  function FirstExact(longs: seq<LongOption>, name: string): (e: nat)
    ensures e <= |longs|
    ensures forall i :: 0 <= i < e ==> longs[i].name != name
    ensures e < |longs| ==> longs[e].name == name
  {
    if longs == [] || longs[0].name == name then 0 else 1 + FirstExact(longs[1..], name)
  }

  /** The long options before index n that the name abbreviates. */
  function Candidates(longs: seq<LongOption>, name: string, n: nat): (s: seq<nat>)
    requires n <= |longs|
    ensures forall i :: i in s <==> 0 <= i < n && name <= longs[i].name
  {
    if n == 0 then []
    else if name <= longs[n - 1].name then Candidates(longs, name, n - 1) + [n - 1]
    else Candidates(longs, name, n - 1)
  }

  /** An exact match wins unless two abbreviations precede it. */
  function LongMatch(longs: seq<LongOption>, name: string): (m: Match)
    ensures m.Found? ==> m.index < |longs| && name <= longs[m.index].name
  {
    var e := FirstExact(longs, name);
    var s := Candidates(longs, name, e);
    if |s| >= 2 then Ambiguous
    else if e < |longs| then Found(e)
    else if |s| == 1 then Found(s[0])
    else NoMatch
  }

  lemma CandidatesGrow(longs: seq<LongOption>, name: string, m: nat, n: nat)
    requires m <= n <= |longs|
    ensures |Candidates(longs, name, m)| <= |Candidates(longs, name, n)|
  {
  }

  /** The search loop of the long option parser. */
  method FindLong(longs: seq<LongOption>, name: string) returns (m: Match)
    ensures m == LongMatch(longs, name)
  {
    m := NoMatch;
    var i := 0;
    while i < |longs|
      invariant 0 <= i <= |longs| && i <= FirstExact(longs, name)
      invariant |Candidates(longs, name, i)| <= 1
      invariant m == if Candidates(longs, name, i) == [] then NoMatch else Found(Candidates(longs, name, i)[0])
    {
      if name <= longs[i].name {
        if |longs[i].name| == |name| {
          assert i == FirstExact(longs, name);
          return Found(i);
        }
        if m == NoMatch {
          m := Found(i);
        } else {
          assert longs[i].name != name;
          CandidatesGrow(longs, name, i + 1, FirstExact(longs, name));
          return Ambiguous;
        }
      }
      i := i + 1;
    }
  }

  lemma {:induction false} CandidatesOrdered(longs: seq<LongOption>, name: string, n: nat)
    requires n <= |longs|
    ensures forall a, b :: 0 <= a < b < |Candidates(longs, name, n)| ==>
      Candidates(longs, name, n)[a] < Candidates(longs, name, n)[b]
  {
    if n > 0 {
      CandidatesOrdered(longs, name, n - 1);
      var s := Candidates(longs, name, n - 1);
      assert forall a :: 0 <= a < |s| ==> s[a] in s;
    }
  }

  /** A name given in full is found unless two longer names that start with it come first. */
  lemma {:induction false} ExactWins(longs: seq<LongOption>, name: string, i: nat)
    requires i < |longs| && longs[i].name == name && forall j :: 0 <= j < i ==> longs[j].name != name
    ensures LongMatch(longs, name) == Found(i) <==>
      !exists j, k :: 0 <= j < k < i && name <= longs[j].name && name <= longs[k].name
  {
    var s := Candidates(longs, name, i);
    assert FirstExact(longs, name) == i;
    if |s| >= 2 {
      CandidatesOrdered(longs, name, i);
      assert s[0] in s && s[1] in s && s[0] < s[1];
    }
    if j, k :| 0 <= j < k < i && name <= longs[j].name && name <= longs[k].name {
      assert j in s && k in s;
      assert |s| >= 2;
    }
  }

  // ----- one call, as a function on views -----

  predicate IsNonOption(a: string) { |a| < 2 || a[0] != '-' }

  /** How the short-option part ends: with an event, or at a long option whose text is in place. */
  datatype Inner = Return(e: Event) | Long

  datatype Kind = Unknown | LongPrefix | Flag | WithArgument(optional: bool)

  /** How the option string describes letter c. */
  function KindOf(letters: string, c: char): Kind {
    var oli := IndexOf(letters, c);
    if c == ':' || oli == |letters| then Unknown
    else if c == 'W' && At(letters, oli + 1) == ';' then LongPrefix
    else if At(letters, oli + 1) != ':' then Flag
    else WithArgument(At(letters, oli + 2) == ':')
  }

  /** A letter that takes an argument: the rest of the cluster or the next argument. */
  function ScanArgument(cfg: Config, v: View, c: char, optional: bool): (r: (View, Event))
    requires v.Valid() && v.place != ""
    ensures r.0.Valid() && r.1.Result?
  {
    var rest := v.place[1..];
    if rest != "" then (v.Take(1), Plain(c as int, Some(rest)))
    else if optional then (v.Take(1), Plain(c as int, None))
    else if |v.unread| == 1 then (v.Take(1), Error(cfg.BadArg(), c as int))
    else (v.Take(2), Plain(c as int, Some(v.unread[1])))
  }

  /** The letter W as a prefix of a long option, in the same or the next argument. */
  function ScanPrefix(cfg: Config, v: View, c: char): (r: (View, Inner))
    requires v.Valid() && v.place != ""
    ensures r.0.Valid() && (if r.1.Long? then r.0.unread != [] else r.1.e.Result?)
  {
    if |v.place| > 1 then (v.(place := v.place[1..]), Long)
    else if |v.unread| == 1 then (v.Take(1), Return(Error(cfg.BadArg(), c as int)))
    else (v.Take(1).(place := v.unread[1]), Long)
  }

  /** One option letter of the cluster in place. */
  function ScanLetter(cfg: Config, v: View): (r: (View, Inner))
    requires v.Valid() && v.place != ""
    ensures r.0.Valid() && (if r.1.Long? then r.0.unread != [] else r.1.e.Result?)
  {
    var c := v.place[0];
    match KindOf(cfg.Letters(), c)
    case Unknown => (v.NextLetter(), Return(Error(BADCH, c as int)))
    case LongPrefix => ScanPrefix(cfg, v, c)
    case Flag => (v.NextLetter(), Return(Plain(c as int, None)))
    case WithArgument(optional) => var (w, e) := ScanArgument(cfg, v, c, optional); (w, Return(e))
  }

  function Internal(cfg: Config, v: View): (r: (View, Inner))
    requires v.Valid()
    ensures r.0.Valid() && (r.1.Long? ==> r.0.unread != [])
    decreases |v.unread|
  {
    if v.place != "" then ScanLetter(cfg, v)
    else if v.unread == [] then (v, Return(Done))
    else
      var a := v.unread[0];
      if IsNonOption(a) then
        if cfg.InOrder() then (v.Take(1), Return(Plain(INORDER, Some(a))))
        else if !cfg.Permute() then (v, Return(Done))
        else Internal(cfg, v.Skip())
      else if a[1] == '-' then (v.(place := a[2..]), Long)
      else ScanLetter(cfg, v.(place := a[1..]))
  }

  /** The long option with this text, read completely. */
  function LongNamed(cfg: Config, v: View, text: string): (r: (View, Event))
    requires v.place == ""
    ensures r.0.place == "" && r.1.Result?
  {
    var eq := IndexOf(text, '=');
    var arg := if eq < |text| then Some(text[eq + 1..]) else None;
    match LongMatch(cfg.longs, text[..eq])
    case NoMatch => (v, Error(BADCH, 0))
    case Ambiguous => (v, Error(BADCH, 0))
    case Found(i) =>
      var l := cfg.longs[i];
      var value := if l.hasFlag then 0 else l.val;
      if l.hasArg == NoArgument && arg.Some? then (v, Error(cfg.BadArg(), value))
      else if l.hasArg != RequiredArgument || arg.Some? then (v, Result(value, arg, None, Some(i)))
      else if v.unread == [] then (v, Error(cfg.BadArg(), value))
      else (v.Take(1), Result(value, Some(v.unread[0]), None, Some(i)))
  }

  /** The long option (or "--") whose text is in place. */
  function LongStep(cfg: Config, v: View): (r: (View, Event))
    requires v.unread != []
    ensures r.0.place == ""
  {
    if v.place == "" then (v.Take(1), Done) else LongNamed(cfg, v.Take(1), v.place)
  }

  /** One call of the parser. */
  function Step(cfg: Config, v: View): (r: (View, Event))
    requires v.Valid()
    ensures r.0.Valid()
  {
    var (w, inner) := Internal(cfg, v);
    match inner
    case Return(e) => (w, e)
    case Long => LongStep(cfg, w)
  }

  /** The parser's state v and its results agree with what the specification says. */
  ghost predicate Outcome(spec: (View, Inner), v: View, e: Event, isLong: bool) {
    && spec.1 == (if isLong then Long else Return(e))
    && v == (if spec.1 == Return(Done) then spec.0.Settled() else spec.0)
  }

  ghost predicate StepOutcome(spec: (View, Event), v: View, e: Event) {
    e == spec.1 && v == (if e == Done then spec.0.Settled() else spec.0)
  }

  /** The variables the caller reads after a call: optarg, and optopt if the call reports one. */
  ghost predicate Reported(e: Event, optarg: Option<string>, optopt: int, before: int) {
    match e
    case Done => optarg == None && optopt == before
    case Result(_, arg, opt, _) => optarg == arg && optopt == if opt.Some? then opt.value else before
  }

  // ----- the parser object -----

  lemma AfterExchange(a: seq<string>, b: seq<string>, start: int, end: int, optind: int)
    requires 1 <= start < end < optind <= |a|
    requires b == a[..start] + a[end..optind] + a[start..end] + a[optind..]
    ensures |b| == |a|
    ensures var first := optind - (end - start);
      && b[0] == a[0] && b[1..first] == a[1..start] + a[end..optind]
      && b[first..optind] == a[start..end] && b[optind..] == a[optind..]
      && b[first..] == a[start..end] + a[optind..]
  {
  }

  class Parser {
    const cfg: Config
    const argv: array<string>
    var place: string       // rest of the option cluster being scanned
    var optind: int
    var optarg: Option<string>
    var optopt: int
    var nonoptStart: int    // first skipped non-option, or -1
    var nonoptEnd: int      // first option after them, or -1

    constructor (cfg: Config, argv: array<string>)
      requires argv.Length >= 1
      ensures this.cfg == cfg && this.argv == argv
      ensures Valid() && Abs() == View([], [], argv[1..], "")
    {
      this.cfg, this.argv := cfg, argv;
      place, optind, optarg, optopt := "", 1, None, '?' as int;
      nonoptStart, nonoptEnd := -1, -1;
    }

    /** The block of skipped arguments and the options after it lie inside argv. */
    ghost predicate Consistent()
      reads this
    {
      && argv.Length >= 1 && 1 <= optind <= argv.Length
      && (nonoptStart == -1 ==> nonoptEnd == -1)
      && (nonoptStart != -1 ==> cfg.Permute() && 1 <= nonoptStart < optind)
      && (nonoptEnd != -1 ==> nonoptStart < nonoptEnd <= optind)
      && (place != "" ==> InOption())
    }

    /** An option argument is being scanned: the skipped block has been closed before it. */
    ghost predicate InOption()
      reads this
    {
      optind < argv.Length && (nonoptStart != -1 ==> nonoptEnd != -1)
    }

    /** Between calls, closed blocks are followed by at least one parsed option. */
    ghost predicate Valid()
      reads this
    {
      Consistent() && (place == "" && nonoptEnd != -1 ==> nonoptEnd < optind)
    }

    ghost function Abs(): (v: View)
      requires Consistent()
      reads this, argv
      ensures v.Valid()
    {
      if nonoptStart == -1 then
        View(argv[1..optind], [], argv[optind..], place)
      else if nonoptEnd == -1 then
        View(argv[1..nonoptStart], argv[nonoptStart..optind], argv[optind..], place)
      else
        View(argv[1..nonoptStart] + argv[nonoptEnd..optind], argv[nonoptStart..nonoptEnd],
                    argv[optind..], place)
    }

    /** Advance optind past n arguments and leave the option cluster. */
    method Advance(n: nat)
      requires Consistent() && InOption() && 1 <= n <= argv.Length - optind
      modifies this`optind, this`place
      ensures Valid() && optind == old(optind) + n && place == "" && Abs() == old(Abs()).Take(n)
    {
      optind := optind + n;
      place := "";
    }

    /** Put the skipped block behind the options that follow it. */
    method Unskip()
      requires Consistent() && place == "" && nonoptEnd != -1 && nonoptEnd < optind
      modifies argv, this`nonoptStart, this`nonoptEnd
      ensures Valid() && Abs() == old(Abs())
      ensures argv[0] == old(argv[0]) && 1 <= nonoptStart < optind && nonoptEnd == -1
    {
      ghost var a := argv[..];
      Rotation.PermuteArgs(argv, nonoptStart, nonoptEnd, optind);
      AfterExchange(a, argv[..], nonoptStart, nonoptEnd, optind);
      nonoptStart := optind - (nonoptEnd - nonoptStart);
      nonoptEnd := -1;
    }

    /** The end of the options: optind goes to the first skipped argument. */
    method Finish()
      requires Valid() && place == ""
      modifies argv, this`optind, this`nonoptStart, this`nonoptEnd
      ensures Valid() && Abs() == old(Abs()).Settled()
      ensures nonoptStart == -1 && argv[0] == old(argv[0])
    {
      if nonoptEnd != -1 {
        Unskip();
      }
      if nonoptStart != -1 {
        optind := nonoptStart;
      }
      nonoptStart, nonoptEnd := -1, -1;
    }

    /** With no block pending, argv is the program name, the options and the rest. */
    lemma Layout()
      requires Consistent() && nonoptStart == -1
      ensures argv[..] == [argv[0]] + Abs().opts + Abs().unread
      ensures optind == 1 + |Abs().opts|
    {
    }

    /** Skip a non-option, for later permutation. */
    method SkipArgument()
      requires Valid() && place == "" && optind < argv.Length && cfg.Permute()
      modifies argv, this`optind, this`nonoptStart, this`nonoptEnd
      ensures Valid() && argv[0] == old(argv[0]) && optind == old(optind) + 1
      ensures Abs() == old(Abs()).Skip()
    {
      if nonoptStart == -1 {
        nonoptStart := optind;
      } else if nonoptEnd != -1 {
        Unskip();
      }
      assert argv[nonoptStart..optind + 1] == argv[nonoptStart..optind] + [argv[optind]];
      optind := optind + 1;
    }

    /** Start on an option: the skipped block ends before it. */
    method OpenOption(text: string)
      requires Valid() && place == "" && optind < argv.Length
      modifies this`place, this`nonoptEnd
      ensures Consistent() && InOption() && Abs() == old(Abs()).(place := text)
    {
      if nonoptStart != -1 && nonoptEnd == -1 {
        nonoptEnd := optind;
      }
      place := text;
    }

    /** Step over one letter, leaving the argument when it was the last. */
    method NextLetter()
      requires Valid() && place != ""
      modifies this`optind, this`place
      ensures Valid() && Abs() == old(Abs()).NextLetter()
    {
      if place[1..] == "" {
        Advance(1);
      } else {
        place := place[1..];
      }
    }

    /** Report a missing argument of letter c and leave the last argument. */
    method MissingArgument(c: char) returns (e: Event)
      requires Valid() && place != "" && optind + 1 == argv.Length
      modifies this`optind, this`place, this`optopt
      ensures Valid() && Abs() == old(Abs()).Take(1) && e == Error(cfg.BadArg(), c as int) && optopt == c as int
    {
      Advance(1);
      optopt := c as int;
      e := Error(cfg.BadArg(), c as int);
    }

    /** The letter W standing for a long option. */
    method ScanW(c: char) returns (e: Event, isLong: bool)
      requires Valid() && place != "" && optarg == None
      modifies this`place, this`optind, this`optopt
      ensures Consistent() && (if isLong then InOption() else Valid() && e != Done)
      ensures Outcome(ScanPrefix(cfg, old(Abs()), c), Abs(), e, isLong)
      ensures if isLong then optopt == old(optopt) else Reported(e, optarg, optopt, old(optopt))
    {
      e, isLong := Done, true;
      if |place| > 1 {
        place := place[1..];
      } else if optind + 1 >= argv.Length {
        e := MissingArgument(c);
        isLong := false;
      } else {
        Advance(1);
        place := argv[optind];
      }
    }

    /** A letter that takes an argument. */
    method ScanOptarg(c: char, optional: bool) returns (e: Event)
      requires Valid() && place != ""
      modifies this`place, this`optind, this`optarg, this`optopt
      ensures Valid() && (Abs(), e) == ScanArgument(cfg, old(Abs()), c, optional)
      ensures Reported(e, optarg, optopt, old(optopt))
    {
      optarg := None;
      if |place| > 1 {
        optarg := Some(place[1..]);
      } else if !optional {
        if optind + 1 >= argv.Length {
          e := MissingArgument(c);
          return;
        }
        optarg := Some(argv[optind + 1]);
        e := Plain(c as int, optarg);
        Advance(2);
        return;
      }
      e := Plain(c as int, optarg);
      Advance(1);
    }

    /** One letter of the cluster in place. */
    method ScanCluster() returns (e: Event, isLong: bool)
      requires Valid() && place != "" && optarg == None
      modifies this`place, this`optind, this`optarg, this`optopt
      ensures Consistent() && (if isLong then InOption() else Valid() && e != Done)
      ensures Outcome(ScanLetter(cfg, old(Abs())), Abs(), e, isLong)
      ensures if isLong then optarg == None && optopt == old(optopt) else Reported(e, optarg, optopt, old(optopt))
    {
      var c := place[0];
      isLong := false;
      match KindOf(cfg.Letters(), c)
      case Unknown =>
        NextLetter();
        optopt := c as int;
        e := Error(BADCH, c as int);
      case LongPrefix =>
        e, isLong := ScanW(c);
      case Flag =>
        NextLetter();
        e := Plain(c as int, None);
      case WithArgument(optional) =>
        e := ScanOptarg(c, optional);
    }

    /** Look for the next option, skipping or reporting non-options; `isLetter` and
        `isLong` say what was found. */
    method SeekOption() returns (e: Event, isLetter: bool, isLong: bool)
      requires Valid() && place == "" && optarg == None
      modifies argv, this`place, this`optind, this`optarg, this`nonoptStart, this`nonoptEnd
      ensures Consistent() && argv[0] == old(argv[0])
      ensures if isLong then InOption() else Valid() && (!isLetter && e == Done ==> nonoptStart == -1)
      ensures isLetter ==> place != "" && ScanLetter(cfg, Abs()) == Internal(cfg, old(Abs()))
      ensures !isLetter ==> Outcome(Internal(cfg, old(Abs())), Abs(), e, isLong)
      ensures optarg == (if !isLetter && !isLong && e.Result? then e.optarg else None)
      ensures !isLetter && !isLong && e.Result? ==> e.optopt == None
    {
      ghost var spec := Internal(cfg, Abs());
      e, isLetter, isLong := Done, false, false;
      while true
        invariant Valid() && argv[0] == old(argv[0]) && place == ""
        invariant Internal(cfg, Abs()) == spec
        invariant optarg == None
        decreases argv.Length - optind
      {
        if optind >= argv.Length {
          Finish();
          return;
        }
        var a := argv[optind];
        assert Abs().unread[0] == a;
        if !IsNonOption(a) {
          isLetter, isLong := a[1] != '-', a[1] == '-';
          OpenOption(if isLong then a[2..] else a[1..]);
          return;
        }
        if cfg.InOrder() {
          optarg := Some(a);
          Advance(1);
          return Plain(INORDER, Some(a)), false, false;
        }
        if !cfg.Permute() {
          return;
        }
        SkipArgument();
      }
    }

    /** The short-option part of one call; `isLong` means a long option's text is in place. */
    method GetoptInternal() returns (e: Event, isLong: bool)
      requires Valid()
      modifies this, argv
      ensures Consistent() && argv[0] == old(argv[0])
      ensures if isLong then InOption() else Valid() && (e == Done ==> nonoptStart == -1)
      ensures Outcome(Internal(cfg, old(Abs())), Abs(), e, isLong)
      ensures if isLong then optarg == None && optopt == old(optopt) else Reported(e, optarg, optopt, old(optopt))
    {
      optarg := None;
      if place == "" {
        var isLetter;
        e, isLetter, isLong := SeekOption();
        if !isLetter {
          return;
        }
      }
      e, isLong := ScanCluster();
    }

    /** The long option with this text, read completely. */
    method ParseNamed(text: string) returns (e: Event)
      requires Valid() && place == "" && (nonoptStart != -1 ==> nonoptEnd != -1) && optarg == None
      modifies this`place, this`optind, this`optarg, this`optopt
      ensures Valid() && (Abs(), e) == LongNamed(cfg, old(Abs()), text)
      ensures Reported(e, optarg, optopt, old(optopt))
    {
      var eq := IndexOf(text, '=');
      var arg := if eq < |text| then Some(text[eq + 1..]) else None;
      var m := FindLong(cfg.longs, text[..eq]);
      if !m.Found? {
        optopt := 0;
        return Error(BADCH, 0);
      }
      var l := cfg.longs[m.index];
      var value := if l.hasFlag then 0 else l.val;
      if l.hasArg == NoArgument && arg.Some? {
        optopt := value;
        return Error(cfg.BadArg(), value);
      }
      if l.hasArg != RequiredArgument || arg.Some? {
        optarg := arg;
      } else if optind >= argv.Length {
        optopt := value;
        return Error(cfg.BadArg(), value);
      } else {
        optarg := Some(argv[optind]);
        Advance(1);
      }
      e := Result(value, optarg, None, Some(m.index));
    }

    /** The long option (or "--") whose text is in place. */
    method ParseLong() returns (e: Event)
      requires Consistent() && InOption() && optarg == None
      modifies this, argv
      ensures Valid() && argv[0] == old(argv[0]) && (e == Done ==> nonoptStart == -1)
      ensures StepOutcome(LongStep(cfg, old(Abs())), Abs(), e)
      ensures Reported(e, optarg, optopt, old(optopt))
    {
      var text := place;
      Advance(1);
      if text == "" {
        Finish();
        return Done;
      }
      e := ParseNamed(text);
    }

    /** One call. */
    method GetoptLong() returns (e: Event)
      requires Valid()
      modifies this, argv
      ensures Valid() && argv[0] == old(argv[0]) && (e == Done ==> nonoptStart == -1)
      ensures StepOutcome(Step(cfg, old(Abs())), Abs(), e)
      ensures Reported(e, optarg, optopt, old(optopt))
    {
      var isLong;
      e, isLong := GetoptInternal();
      if isLong {
        e := ParseLong();
      }
    }
  }

  // ----- whole runs -----

  function Text(args: seq<string>): nat {
    if args == [] then 0 else |args[0]| + 1 + Text(args[1..])
  }

  /** The argument text still to be read. */
  function Measure(v: View): nat
    requires v.Valid()
  {
    if v.place == "" then Text(v.unread) else |v.place| + Text(v.unread[1..])
  }

  lemma TextDrop(args: seq<string>, n: nat)
    requires n <= |args|
    ensures Text(args[n..]) + n <= Text(args)
  {
    if n > 0 {
      TextDrop(args[1..], n - 1);
      assert args[1..][n - 1..] == args[n..];
    }
  }

  lemma LetterShrinks(cfg: Config, v: View)
    requires v.Valid() && v.place != ""
    ensures var (w, inner) := ScanLetter(cfg, v);
      if inner.Return? then Measure(w) < Measure(v) else Text(w.unread[1..]) < Measure(v)
  {
    TextDrop(v.unread[1..], if |v.unread| == 1 then 0 else 1);
    if |v.unread| > 1 { assert v.unread[1..][1..] == v.unread[2..]; }
  }

  lemma LongShrinks(cfg: Config, v: View)
    requires v.unread != []
    ensures Measure(LongStep(cfg, v).0) <= Text(v.unread[1..])
  {
    TextDrop(v.unread[1..], if |v.unread| == 1 then 0 else 1);
  }

  lemma {:induction false} InternalShrinks(cfg: Config, v: View)
    requires v.Valid()
    ensures var (w, inner) := Internal(cfg, v);
      match inner
      case Return(e) => e == Done || Measure(w) < Measure(v)
      case Long => Text(w.unread[1..]) < Measure(v)
    decreases |v.unread|
  {
    if v.place != "" {
      LetterShrinks(cfg, v);
    } else if v.unread != [] {
      var a := v.unread[0];
      if !IsNonOption(a) {
        if a[1] != '-' { LetterShrinks(cfg, v.(place := a[1..])); }
      } else if !cfg.InOrder() && cfg.Permute() {
        InternalShrinks(cfg, v.Skip());
      }
    }
  }

  /** Every call that does not end the run reads some argument text. */
  lemma StepShrinks(cfg: Config, v: View)
    requires v.Valid()
    ensures var (w, e) := Step(cfg, v); e == Done || Measure(w) < Measure(v)
  {
    InternalShrinks(cfg, v);
    var (w, inner) := Internal(cfg, v);
    if inner.Long? { LongShrinks(cfg, w); }
  }

  /** Calling the parser until it reports the end: the last view and all events. */
  function Run(cfg: Config, v: View): (r: (View, seq<Event>))
    requires v.Valid()
    ensures r.0.Valid()
    decreases Measure(v)
  {
    var (w, e) := Step(cfg, v);
    if e == Done then (w, [e])
    else
      StepShrinks(cfg, v);
      var (z, es) := Run(cfg, w);
      (z, [e] + es)
  }

  // ----- the reference classification -----

  /** How many arguments an option occupies, and whether it ends the options. */
  datatype Span = Span(count: nat, last: bool)

  /** A long option after k arguments of args have been read for it. */
  function LongSpan(cfg: Config, text: string, args: seq<string>, k: nat): (s: Span)
    requires k <= |args|
    ensures k <= s.count <= |args|
  {
    var eq := IndexOf(text, '=');
    var m := LongMatch(cfg.longs, text[..eq]);
    if text == "" then Span(k, true)
    else if m.Found? && cfg.longs[m.index].hasArg == RequiredArgument && eq == |text| && k < |args|
      then Span(k + 1, false)
    else Span(k, false)
  }

  /** The letters of a cluster, up to one that takes an argument. */
  function ClusterSpan(cfg: Config, text: string, args: seq<string>): (s: Span)
    requires text != "" && args != []
    ensures 1 <= s.count <= |args|
  {
    match KindOf(cfg.Letters(), text[0])
    case LongPrefix =>
      if |text| > 1 then LongSpan(cfg, text[1..], args, 1)
      else if |args| == 1 then Span(1, false)
      else LongSpan(cfg, args[1], args, 2)
    case WithArgument(optional) =>
      if |text| > 1 || optional || |args| == 1 then Span(1, false) else Span(2, false)
    case _ =>
      if |text| > 1 then ClusterSpan(cfg, text[1..], args) else Span(1, false)
  }

  function OptionSpan(cfg: Config, args: seq<string>): (s: Span)
    requires args != [] && !IsNonOption(args[0])
    ensures 1 <= s.count <= |args|
  {
    if args[0][1] == '-' then LongSpan(cfg, args[0][2..], args, 1) else ClusterSpan(cfg, args[0][1..], args)
  }

  function Trues(n: nat): seq<bool> { seq(n, _ => true) }

  /** Marks the arguments up to the end of the options: true for an option or an option's
      argument, false for a skipped non-option. */
  function Classify(cfg: Config, args: seq<string>): (marks: seq<bool>)
    ensures |marks| <= |args|
  {
    if args == [] then []
    else if IsNonOption(args[0]) then
      if cfg.InOrder() then [true] + Classify(cfg, args[1..])
      else if !cfg.Permute() then []
      else [false] + Classify(cfg, args[1..])
    else
      var s := OptionSpan(cfg, args);
      Trues(s.count) + (if s.last then [] else Classify(cfg, args[s.count..]))
  }

  /** The arguments with the given mark, in order. */
  function Pick(args: seq<string>, marks: seq<bool>, mark: bool): seq<string>
    requires |marks| <= |args|
  {
    if marks == [] then []
    else (if marks[0] == mark then [args[0]] else []) + Pick(args[1..], marks[1..], mark)
  }

  lemma {:induction false} PickTrues(args: seq<string>, n: nat, marks: seq<bool>)
    requires n + |marks| <= |args|
    ensures Pick(args, Trues(n) + marks, true) == args[..n] + Pick(args[n..], marks, true)
    ensures Pick(args, Trues(n) + marks, false) == Pick(args[n..], marks, false)
  {
    if n == 0 {
      assert Trues(0) + marks == marks;
    } else {
      PickTrues(args[1..], n - 1, marks);
      assert (Trues(n) + marks)[1..] == Trues(n - 1) + marks;
      assert args[1..][n - 1..] == args[n..] && [args[0]] + args[1..][..n - 1] == args[..n];
    }
  }

  ghost function Final(cfg: Config, v: View): View
    requires v.Valid()
  {
    Run(cfg, v).0
  }

  lemma FinalStep(cfg: Config, v: View)
    requires v.Valid()
    ensures var (w, e) := Step(cfg, v); Final(cfg, v) == if e == Done then w else Final(cfg, w)
  {
  }

  /** Continue after an option: stop if it was the last, else go on behind it. */
  ghost function After(cfg: Config, v: View, s: Span): View
    requires s.count <= |v.unread|
  {
    if s.last then v.Take(s.count) else Final(cfg, v.Take(s.count))
  }

  lemma TakeTake(v: View, m: nat, n: nat)
    requires m + n <= |v.unread|
    ensures v.Take(m).Take(n) == v.Take(m + n)
  {
    var a, b := v.unread[..m], v.unread[m..][..n];
    assert v.opts + a + b == v.opts + (a + b) && a + b == v.unread[..m + n];
    assert v.unread[m..][n..] == v.unread[m + n..];
  }

  /** A long option read to its end. */
  lemma LongRun(cfg: Config, v: View, text: string, k: nat)
    requires 1 <= k <= |v.unread|
    ensures var (w, e) := if text == "" then (v.Take(k), Done) else LongNamed(cfg, v.Take(k), text);
      (if e == Done then w else Final(cfg, w)) == After(cfg, v, LongSpan(cfg, text, v.unread, k))
  {
    if k < |v.unread| { TakeTake(v, k, 1); }
  }

  lemma {:induction false} ClusterRun(cfg: Config, v: View)
    requires v.Valid() && v.place != ""
    ensures Final(cfg, v) == After(cfg, v, ClusterSpan(cfg, v.place, v.unread))
    decreases |v.place|
  {
    FinalStep(cfg, v);
    match KindOf(cfg.Letters(), v.place[0]) {
      case LongPrefix =>
        if |v.place| > 1 {
          LongRun(cfg, v, v.place[1..], 1);
        } else if |v.unread| > 1 {
          LongRun(cfg, v, v.unread[1], 2);
          TakeTake(v, 1, 1);
        }
      case WithArgument(optional) =>
      case _ =>
        if |v.place| > 1 { ClusterRun(cfg, v.(place := v.place[1..])); }
    }
  }

  /** An option argument, from its first character to its last argument. */
  lemma OptionRun(cfg: Config, v: View)
    requires v.place == "" && v.unread != [] && !IsNonOption(v.unread[0])
    ensures Final(cfg, v) == After(cfg, v, OptionSpan(cfg, v.unread))
  {
    var a := v.unread[0];
    FinalStep(cfg, v);
    if a[1] == '-' {
      LongRun(cfg, v, a[2..], 1);
    } else {
      ClusterRun(cfg, v.(place := a[1..]));
      FinalStep(cfg, v.(place := a[1..]));
    }
  }

  /** A non-option ends the run, is reported, or is skipped. */
  lemma NonOptionRun(cfg: Config, v: View)
    requires v.place == "" && v.unread != [] && IsNonOption(v.unread[0])
    ensures Final(cfg, v) ==
            if cfg.InOrder() then Final(cfg, v.Take(1)) else if !cfg.Permute() then v else Final(cfg, v.Skip())
  {
    FinalStep(cfg, v);
    FinalStep(cfg, v.Skip());
  }

  /** The views agree on what the marks say of the arguments. */
  ghost function Partition(v: View, marks: seq<bool>): View
    requires |marks| <= |v.unread|
  {
    View(v.opts + Pick(v.unread, marks, true), v.skipped + Pick(v.unread, marks, false), v.unread[|marks|..], "")
  }

  /** A whole run is the stable partition given by the reference classification. */
  lemma {:induction false} RunPartitions(cfg: Config, v: View)
    requires v.place == ""
    ensures Final(cfg, v) == Partition(v, Classify(cfg, v.unread))
    decreases |v.unread|
  {
    var marks := Classify(cfg, v.unread);
    if v.unread == [] {
    } else if IsNonOption(v.unread[0]) {
      NonOptionRun(cfg, v);
      if cfg.InOrder() {
        RunPartitions(cfg, v.Take(1));
        PartitionTake(v, 1, marks[1..]);
        assert marks == Trues(1) + marks[1..];
      } else if cfg.Permute() {
        RunPartitions(cfg, v.Skip());
        PartitionSkip(v, marks);
      }
    } else {
      var s := OptionSpan(cfg, v.unread);
      var rest := if s.last then [] else Classify(cfg, v.unread[s.count..]);
      OptionRun(cfg, v);
      if !s.last { RunPartitions(cfg, v.Take(s.count)); }
      PartitionTake(v, s.count, rest);
    }
  }

  lemma PartitionTake(v: View, n: nat, marks: seq<bool>)
    requires n + |marks| <= |v.unread|
    ensures Partition(v, Trues(n) + marks) == Partition(v.Take(n), marks)
    ensures marks == [] ==> Partition(v.Take(n), marks) == v.Take(n)
  {
    PickTrues(v.unread, n, marks);
    var o, p := v.unread[..n], Pick(v.unread[n..], marks, true);
    assert v.opts + (o + p) == v.opts + o + p;
    assert v.unread[n..][|marks|..] == v.unread[n + |marks|..];
  }

  lemma PartitionSkip(v: View, marks: seq<bool>)
    requires v.unread != [] && 1 <= |marks| <= |v.unread| && !marks[0]
    ensures Partition(v, marks) == Partition(v.Skip(), marks[1..])
  {
    var p := Pick(v.unread[1..], marks[1..], false);
    assert v.skipped + ([v.unread[0]] + p) == v.skipped + [v.unread[0]] + p;
  }

  /** The caller's loop: call the parser until it returns -1. */
  method ParseLoop(p: Parser) returns (events: seq<Event>)
    requires p.Valid()
    requires forall l :: l in p.cfg.longs ==> l.hasFlag || l.val != -1
    modifies p, p.argv
    ensures p.Valid() && p.nonoptStart == -1 && p.argv[0] == old(p.argv[0])
    ensures p.Abs() == Final(p.cfg, old(p.Abs())).Settled()
    ensures events == Run(p.cfg, old(p.Abs())).1
  {
    ghost var start, v := p.Abs(), p.Abs();
    events := [];
    while true
      invariant p.Valid() && p.Abs() == v && p.argv[0] == old(p.argv[0])
      invariant Final(p.cfg, v) == Final(p.cfg, start)
      invariant events + Run(p.cfg, v).1 == Run(p.cfg, start).1
      decreases Measure(v)
    {
      RunStep(p.cfg, v, events);
      NotMinusOne(p.cfg, v);
      var e := p.GetoptLong();
      events := events + [e];
      if e.ReturnValue() == -1 {
        break;
      }
      v := Step(p.cfg, v).0;
    }
  }

  /** A whole parse leaves argv stably partitioned: the options with their arguments, then
      the skipped non-options and whatever followed "--", with optind on the first of these. */
  method ParseAll(p: Parser) returns (events: seq<Event>)
    requires p.Valid() && p.Abs() == View([], [], p.argv[1..], "")
    requires forall l :: l in p.cfg.longs ==> l.hasFlag || l.val != -1
    modifies p, p.argv
    ensures var args := old(p.argv[1..]); var marks := Classify(p.cfg, args);
      && events == Run(p.cfg, View([], [], args, "")).1
      && p.argv[..] == [old(p.argv[0])] + Pick(args, marks, true) + (Pick(args, marks, false) + args[|marks|..])
      && p.optind == 1 + |Pick(args, marks, true)|
  {
    WholeRun(p.cfg, p.argv[1..]);
    events := ParseLoop(p);
    p.Layout();
  }

  lemma WholeRun(cfg: Config, args: seq<string>)
    ensures var marks := Classify(cfg, args);
      Final(cfg, View([], [], args, ""))
      == View(Pick(args, marks, true), Pick(args, marks, false), args[|marks|..], "")
  {
    RunPartitions(cfg, View([], [], args, ""));
  }

  lemma RunStep(cfg: Config, v: View, events: seq<Event>)
    requires v.Valid()
    ensures var (w, e) := Step(cfg, v);
      if e == Done then Run(cfg, v) == (w, [e])
      else
        && Measure(w) < Measure(v) && Final(cfg, w) == Final(cfg, v)
        && events + Run(cfg, v).1 == (events + [e]) + Run(cfg, w).1
  {
    StepShrinks(cfg, v);
  }

  lemma NotMinusOne(cfg: Config, v: View)
    requires v.Valid()
    requires forall l :: l in cfg.longs ==> l.hasFlag || l.val != -1
    ensures Step(cfg, v).1.ReturnValue() == -1 ==> Step(cfg, v).1 == Done
  {
    InternalEvents(cfg, v);
  }

  lemma {:induction false} InternalEvents(cfg: Config, v: View)
    requires v.Valid()
    ensures var inner := Internal(cfg, v).1; inner.Return? && inner.e != Done ==> inner.e.value >= 0
    decreases |v.unread|
  {
    if v.place == "" && v.unread != [] && IsNonOption(v.unread[0]) && !cfg.InOrder() && cfg.Permute() {
      InternalEvents(cfg, v.Skip());
    }
  }
}
