/** What the option parser reports: the events of a run, read off the arguments as a user spells them. */
module Options {
  import opened Common
  import opened Getopt

  // ----- what the caller declares -----

  function Colons(h: HasArg): string {
    match h
    case NoArgument => ""
    case RequiredArgument => ":"
    case OptionalArgument => "::"
  }

  /** The first c among the letters stands between a and b with the colons of h, and no more. */
  predicate DeclaredBy(letters: string, c: char, h: HasArg, a: string, b: string) {
    && letters == a + [c] + Colons(h) + b && c !in a
    && (h != OptionalArgument ==> !(":" <= b))
    && (c == 'W' && h == NoArgument ==> !(";" <= b))
  }

  ghost predicate Declares(letters: string, c: char, h: HasArg) {
    c != ':' && exists a, b :: DeclaredBy(letters, c, h, a, b)
  }

  /** The letter W stands for a long option. */
  ghost predicate DeclaresPrefix(letters: string) {
    exists a, b :: letters == a + "W;" + b && 'W' !in a
  }

  predicate Undeclared(letters: string, c: char) { c == ':' || c !in letters }

  lemma {:induction false} IndexIs(s: string, c: char, a: string, b: string)
    requires s == a + [c] + b && c !in a
    ensures IndexOf(s, c) == |a|
  {
    if a != "" {
      assert s[1..] == a[1..] + [c] + b && s[0] == a[0];
      IndexIs(s[1..], c, a[1..], b);
    }
  }

  lemma {:induction false} IndexNone(s: string, c: char)
    requires c !in s
    ensures IndexOf(s, c) == |s|
  {
    if s != "" { IndexNone(s[1..], c); }
  }

  lemma Reassoc<T>(a: seq<T>, b: seq<T>, c: seq<T>)
    ensures a + b + c == a + (b + c)
  {
  }

  lemma {:induction false} KindBy(letters: string, c: char, a: string, t: string)
    requires letters == a + [c] + t && c !in a && c != ':'
    ensures KindOf(letters, c) ==
      if c == 'W' && At(t, 0) == ';' then LongPrefix
      else if At(t, 0) != ':' then Flag
      else WithArgument(At(t, 1) == ':')
  {
    IndexIs(letters, c, a, t);
    assert forall i :: 0 <= i < |t| ==> letters[|a| + 1 + i] == t[i];
    assert At(letters, |a| + 1) == At(t, 0) && At(letters, |a| + 2) == At(t, 1);
  }

  lemma {:induction false} DeclaredKind(letters: string, c: char, h: HasArg, a: string, b: string)
    requires c != ':' && DeclaredBy(letters, c, h, a, b)
    ensures KindOf(letters, c) == match h
      case NoArgument => Flag
      case RequiredArgument => WithArgument(false)
      case OptionalArgument => WithArgument(true)
  {
    assert letters == a + [c] + (Colons(h) + b);
    KindBy(letters, c, a, Colons(h) + b);
  }

  lemma {:induction false} PrefixKind(letters: string, a: string, b: string)
    requires letters == a + "W;" + b && 'W' !in a
    ensures KindOf(letters, 'W') == LongPrefix
  {
    assert letters == a + ['W'] + (";" + b);
    IndexIs(letters, 'W', a, ";" + b);
    assert letters[|a| + 1] == ';';
  }

  lemma DeclaresAt(letters: string, c: char, h: HasArg, a: string, t: string, b: string)
    requires letters == a + [c] + t && c !in a && c != ':' && t == Colons(h) + b
    requires (h != OptionalArgument ==> At(b, 0) != ':') && (c == 'W' && h == NoArgument ==> At(b, 0) != ';')
    ensures Declares(letters, c, h)
  {
    assert letters == a + [c] + Colons(h) + b;
    assert DeclaredBy(letters, c, h, a, b);
  }

  lemma {:induction false} SomeDeclaration(letters: string, c: char)
    ensures match KindOf(letters, c)
      case Unknown => Undeclared(letters, c)
      case LongPrefix => c == 'W' && DeclaresPrefix(letters)
      case Flag => Declares(letters, c, NoArgument)
      case WithArgument(optional) => Declares(letters, c, if optional then OptionalArgument else RequiredArgument)
  {
    var i := IndexOf(letters, c);
    if c != ':' && i < |letters| {
      var a, t := letters[..i], letters[i + 1..];
      assert letters == a + [c] + t;
      KindBy(letters, c, a, t);
      match KindOf(letters, c)
      case Unknown =>
      case LongPrefix => assert t == ";" + t[1..] && letters == a + "W;" + t[1..];
      case Flag => DeclaresAt(letters, c, NoArgument, a, t, t);
      case WithArgument(optional) =>
        assert t == ":" + t[1..];
        if optional {
          assert t == "::" + t[2..];
          DeclaresAt(letters, c, OptionalArgument, a, t, t[2..]);
        } else {
          DeclaresAt(letters, c, RequiredArgument, a, t, t[1..]);
        }
    } else {
      assert letters[..|letters|] == letters;
    }
  }

  /** The option string decides exactly as it is written what each letter takes. */
  lemma {:induction false} KindExact(letters: string, c: char)
    ensures KindOf(letters, c) == Unknown <==> Undeclared(letters, c)
    ensures KindOf(letters, c) == LongPrefix <==> c == 'W' && DeclaresPrefix(letters)
    ensures KindOf(letters, c) == Flag <==> Declares(letters, c, NoArgument)
    ensures KindOf(letters, c) == WithArgument(false) <==> Declares(letters, c, RequiredArgument)
    ensures KindOf(letters, c) == WithArgument(true) <==> Declares(letters, c, OptionalArgument)
  {
    SomeDeclaration(letters, c);
    forall h | Declares(letters, c, h)
      ensures KindOf(letters, c) == match h
        case NoArgument => Flag
        case RequiredArgument => WithArgument(false)
        case OptionalArgument => WithArgument(true)
    {
      var a, b :| DeclaredBy(letters, c, h, a, b);
      DeclaredKind(letters, c, h, a, b);
    }
    if c == 'W' && DeclaresPrefix(letters) {
      var a, b :| letters == a + "W;" + b && 'W' !in a;
      PrefixKind(letters, a, b);
    }
  }

  // ----- modes -----

  predicate Ordered(cfg: Config) { !cfg.posixly && "-" <= cfg.options }

  predicate Permuting(cfg: Config) { !cfg.posixly && !("-" <= cfg.options) && !("+" <= cfg.options) }

  function Declared(cfg: Config): string {
    if "-" <= cfg.options || "+" <= cfg.options then cfg.options[1..] else cfg.options
  }

  /** How a missing or unwanted argument is reported. */
  function Complaint(cfg: Config): int {
    if ":" <= cfg.options || "-:" <= cfg.options || "+:" <= cfg.options then ':' as int else '?' as int
  }

  lemma Modes(cfg: Config)
    ensures cfg.InOrder() == Ordered(cfg) && cfg.Permute() == Permuting(cfg)
    ensures cfg.Letters() == Declared(cfg) && cfg.BadArg() == Complaint(cfg)
  {
  }

  // ----- the long option a name means -----

  /** An exact name, unless two longer names that start with it come first; else the only name
      that starts with it. */
  ghost predicate Means(longs: seq<LongOption>, name: string, i: nat) {
    i < |longs| &&
    if longs[i].name == name then
      && (forall j :: 0 <= j < i ==> longs[j].name != name)
      && !exists j, k :: 0 <= j < k < i && name <= longs[j].name && name <= longs[k].name
    else
      && name <= longs[i].name
      && forall j :: 0 <= j < |longs| && j != i ==> !(name <= longs[j].name)
  }

  lemma Sole(s: seq<nat>, i: nat)
    requires i in s && (forall x :: x in s ==> x == i) && forall a, b :: 0 <= a < b < |s| ==> s[a] < s[b]
    ensures s == [i]
  {
    FirstTwo(s);
    assert s[0] in s;
  }

  lemma FirstTwo(s: seq<nat>)
    requires forall a, b :: 0 <= a < b < |s| ==> s[a] < s[b]
    ensures |s| <= 1 || (s[0] in s && s[1] in s && s[0] != s[1])
  {
  }

  lemma {:induction false} AbbreviationFound(longs: seq<LongOption>, name: string, i: nat)
    requires i < |longs| && longs[i].name != name
    ensures LongMatch(longs, name) == Found(i) <==> Means(longs, name, i)
  {
    var e := FirstExact(longs, name);
    var s := Candidates(longs, name, e);
    CandidatesOrdered(longs, name, e);
    if Means(longs, name, i) {
      NoExact(longs, name, i);
      Sole(s, i);
    }
    if LongMatch(longs, name) == Found(i) {
      assert s[0] in s;
      assert e == |longs| && s == [i] && forall j :: 0 <= j < |longs| && name <= longs[j].name ==> j in s;
    }
  }

  lemma NoExact(longs: seq<LongOption>, name: string, i: nat)
    requires Means(longs, name, i) && longs[i].name != name
    ensures FirstExact(longs, name) == |longs|
  {
    assert forall j :: 0 <= j < |longs| && longs[j].name == name ==> name <= longs[j].name;
  }

  lemma {:induction false} ExactFound(longs: seq<LongOption>, name: string, i: nat)
    requires i < |longs| && longs[i].name == name
    ensures LongMatch(longs, name) == Found(i) <==> Means(longs, name, i)
  {
    if forall j :: 0 <= j < i ==> longs[j].name != name {
      ExactWins(longs, name, i);
    } else {
      var s := Candidates(longs, name, FirstExact(longs, name));
      assert FirstExact(longs, name) < i;
      assert |s| == 1 ==> s[0] in s;
    }
  }

  /** The search finds the option a name means. */
  lemma {:induction false} MatchExact(longs: seq<LongOption>, name: string, i: nat)
    ensures LongMatch(longs, name) == Found(i) <==> Means(longs, name, i)
  {
    if i < |longs| {
      if longs[i].name == name { ExactFound(longs, name, i); } else { AbbreviationFound(longs, name, i); }
    }
  }

  // ----- the events of an argument list -----

  ghost function Events(cfg: Config, args: seq<string>): seq<Event> { Run(cfg, View([], [], args, "")).1 }

  function Fresh(v: View): View { View([], [], v.unread, v.place) }

  /** What has been read before does not matter to what is reported. */
  lemma {:induction false} InternalFresh(cfg: Config, v: View)
    requires v.Valid()
    ensures Internal(cfg, v).1 == Internal(cfg, Fresh(v)).1
    ensures Fresh(Internal(cfg, v).0) == Fresh(Internal(cfg, Fresh(v)).0)
    decreases |v.unread|
  {
    if v.place == "" && v.unread != [] && IsNonOption(v.unread[0]) && !cfg.InOrder() && cfg.Permute() {
      InternalFresh(cfg, v.Skip());
      InternalFresh(cfg, Fresh(v).Skip());
    }
  }

  lemma {:induction false} StepFresh(cfg: Config, v: View)
    requires v.Valid()
    ensures Step(cfg, v).1 == Step(cfg, Fresh(v)).1 && Fresh(Step(cfg, v).0) == Fresh(Step(cfg, Fresh(v)).0)
  {
    InternalFresh(cfg, v);
  }

  lemma {:induction false} RunFresh(cfg: Config, v: View)
    requires v.Valid()
    ensures Run(cfg, v).1 == Run(cfg, Fresh(v)).1
    decreases Measure(v)
  {
    StepFresh(cfg, v);
    StepShrinks(cfg, v);
    StepShrinks(cfg, Fresh(v));
    if Step(cfg, v).1 != Done {
      RunFresh(cfg, Step(cfg, v).0);
      RunFresh(cfg, Step(cfg, Fresh(v)).0);
    }
  }

  /** The events from a view on, one call at a time. */
  lemma {:induction false} NextEvent(cfg: Config, v: View)
    requires v.Valid()
    ensures var (w, e) := Step(cfg, v);
      Run(cfg, v).1 == if e == Done then [Done] else [e] + Run(cfg, w).1
    ensures Step(cfg, v).0.place == "" ==> Run(cfg, Step(cfg, v).0).1 == Events(cfg, Step(cfg, v).0.unread)
  {
    StepShrinks(cfg, v);
    RunFresh(cfg, Step(cfg, v).0);
  }

  // ----- options as they are spelled -----

  /** A long option: its name or an abbreviation, the value behind '=', the argument taken from
      behind it, and the index of the option meant. */
  datatype LongText = LongText(name: string, value: Option<string>, next: Option<string>, target: Option<nat>)

  function TextOf(p: LongText): string { if p.value.Some? then p.name + "=" + p.value.value else p.name }

  function NextOf(p: LongText): seq<string> { if p.next.Some? then [p.next.value] else [] }

  /** How a cluster of letters ends behind its flags. */
  datatype Tail =
    | NoTail
    | Argument(c: char, x: string, joined: bool)   // a letter with its argument
    | Alone(c: char)                               // a letter without its optional argument
    | Lacking(c: char)                             // a letter whose argument is missing
    | Prefix(long: LongText, joined: bool)         // W and a long option
    | PrefixEnd                                    // W and an empty argument
    | PrefixLacking                                // W and nothing

  datatype Item = Word(text: string) | Cluster(flags: string, tail: Tail) | Named(long: LongText) | End

  /** What a tail adds to the argument of its cluster, and the arguments it adds behind it. */
  function Body(t: Tail): string {
    match t
    case NoTail => ""
    case Argument(c, x, joined) => if joined then [c] + x else [c]
    case Alone(c) => [c]
    case Lacking(c) => [c]
    case Prefix(p, joined) => if joined then "W" + TextOf(p) else "W"
    case PrefixEnd => "W"
    case PrefixLacking => "W"
  }

  function Extra(t: Tail): seq<string> {
    match t
    case Argument(_, x, joined) => if joined then [] else [x]
    case Prefix(p, joined) => (if joined then [] else [TextOf(p)]) + NextOf(p)
    case PrefixEnd => [""]
    case _ => []
  }

  function Spell(item: Item): (args: seq<string>)
    ensures args != []
  {
    match item
    case Word(text) => [text]
    case Cluster(flags, t) => ["-" + flags + Body(t)] + Extra(t)
    case Named(p) => ["--" + TextOf(p)] + NextOf(p)
    case End => ["--"]
  }

  /** The option meant has to take its argument from behind. */
  predicate Wants(cfg: Config, p: LongText) {
    p.target.Some? && p.target.value < |cfg.longs| && cfg.longs[p.target.value].hasArg == RequiredArgument &&
    p.value.None?
  }

  ghost predicate LongFits(cfg: Config, p: LongText, rest: seq<string>) {
    && '=' !in p.name && TextOf(p) != ""
    && (forall i: nat :: Means(cfg.longs, p.name, i) <==> p.target == Some(i))
    && (p.next.Some? ==> Wants(cfg, p))
    && (Wants(cfg, p) && p.next.None? ==> rest == [])
  }

  ghost predicate AllFlags(letters: string, flags: string) {
    forall i :: 0 <= i < |flags| ==> Declares(letters, flags[i], NoArgument) || Undeclared(letters, flags[i])
  }

  ghost predicate TailFits(cfg: Config, t: Tail, rest: seq<string>) {
    var letters := Declared(cfg);
    match t
    case NoTail => true
    case Argument(c, x, joined) =>
      Declares(letters, c, RequiredArgument) || (joined && Declares(letters, c, OptionalArgument))
    case Alone(c) => Declares(letters, c, OptionalArgument)
    case Lacking(c) => Declares(letters, c, RequiredArgument) && rest == []
    case Prefix(p, _) => DeclaresPrefix(letters) && LongFits(cfg, p, rest)
    case PrefixEnd => DeclaresPrefix(letters)
    case PrefixLacking => DeclaresPrefix(letters) && rest == []
  }

  /** The item can be spelled, with the arguments `rest` behind it. */
  ghost predicate Fits(cfg: Config, item: Item, rest: seq<string>) {
    match item
    case Word(text) => text == "" || text == "-" || text[0] != '-'
    case Cluster(flags, t) =>
      var letters := flags + Body(t);
      && letters != "" && letters[0] != '-' && AllFlags(Declared(cfg), flags) && TailFits(cfg, t, rest)
      && (t.Argument? && t.joined ==> t.x != "")
    case Named(p) => LongFits(cfg, p, rest)
    case End => true
  }

  // ----- what an item is reported as -----

  ghost function FlagSays(letters: string, c: char): Event {
    if Undeclared(letters, c) then Result('?' as int, None, Some(c as int), None)
    else Result(c as int, None, None, None)
  }

  ghost function FlagsSay(letters: string, flags: string): seq<Event> {
    if flags == "" then [] else [FlagSays(letters, flags[0])] + FlagsSay(letters, flags[1..])
  }

  /** The value of a long option, or 0 if it is stored through a pointer; its argument; its index. */
  function LongSays(cfg: Config, p: LongText): Event {
    if p.target.None? || p.target.value >= |cfg.longs| then Result('?' as int, None, Some(0), None)
    else
      var l := cfg.longs[p.target.value];
      var value := if l.hasFlag then 0 else l.val;
      if (l.hasArg == NoArgument && p.value.Some?) || (Wants(cfg, p) && p.next.None?)
      then Result(Complaint(cfg), None, Some(value), None)
      else Result(value, if p.value.Some? then p.value else p.next, None, p.target)
  }

  function TailSays(cfg: Config, t: Tail): seq<Event> {
    match t
    case Argument(c, x, _) => [Result(c as int, Some(x), None, None)]
    case Alone(c) => [Result(c as int, None, None, None)]
    case Lacking(c) => [Result(Complaint(cfg), None, Some(c as int), None)]
    case Prefix(p, _) => [LongSays(cfg, p)]
    case PrefixLacking => [Result(Complaint(cfg), None, Some('W' as int), None)]
    case _ => []
  }

  ghost function Says(cfg: Config, item: Item): seq<Event> {
    match item
    case Word(text) => if Ordered(cfg) then [Result(1, Some(text), None, None)] else []
    case Cluster(flags, t) => FlagsSay(Declared(cfg), flags) + TailSays(cfg, t)
    case Named(p) => [LongSays(cfg, p)]
    case End => []
  }

  predicate EndsAt(t: Tail) { t == PrefixEnd }

  /** The run ends with the item. */
  predicate Ends(cfg: Config, item: Item) {
    match item
    case Word(_) => !Ordered(cfg) && !Permuting(cfg)
    case Cluster(_, t) => EndsAt(t)
    case Named(_) => false
    case End => true
  }

  ghost function Onward(cfg: Config, ends: bool, rest: seq<string>): seq<Event> {
    if ends then [Done] else Events(cfg, rest)
  }

  // ----- long options -----

  lemma {:induction false} TextParts(p: LongText)
    requires '=' !in p.name
    ensures var eq := IndexOf(TextOf(p), '=');
      TextOf(p)[..eq] == p.name && (if eq < |TextOf(p)| then Some(TextOf(p)[eq + 1..]) else None) == p.value
  {
    var text := TextOf(p);
    if p.value.Some? {
      IndexIs(text, '=', p.name, p.value.value);
      assert text[..|p.name|] == p.name && text[|p.name| + 1..] == p.value.value;
    } else {
      IndexNone(text, '=');
      assert text[..|text|] == text;
    }
  }

  /** The option in place, with what its spelling adds behind it. */
  lemma {:induction false} LongReported(cfg: Config, v: View, p: LongText, rest: seq<string>)
    requires LongFits(cfg, p, rest) && v.place == "" && v.unread == NextOf(p) + rest
    ensures LongNamed(cfg, v, TextOf(p)).1 == LongSays(cfg, p) && LongNamed(cfg, v, TextOf(p)).0.unread == rest
  {
    TextParts(p);
    Modes(cfg);
    var m := LongMatch(cfg.longs, p.name);
    if m.Found? { MatchExact(cfg.longs, p.name, m.index); }
    if p.target.Some? { MatchExact(cfg.longs, p.name, p.target.value); }
  }

  // ----- clusters -----

  /** v is in a cluster that ends in t, before the arguments `rest`. */
  predicate InCluster(v: View, flags: string, t: Tail, rest: seq<string>) {
    v.place != "" && v.place == flags + Body(t) && v.unread != [] && v.unread[1..] == Extra(t) + rest
  }

  lemma {:induction false} TailLetter(cfg: Config, t: Tail, rest: seq<string>)
    requires TailFits(cfg, t, rest) && t != NoTail
    ensures Body(t) != ""
    ensures KindOf(cfg.Letters(), Body(t)[0]) ==
      match t
      case Argument(c, _, _) => WithArgument(!Declares(Declared(cfg), c, RequiredArgument))
      case Alone(_) => WithArgument(true)
      case Lacking(_) => WithArgument(false)
      case _ => LongPrefix
  {
    Modes(cfg);
    KindExact(Declared(cfg), Body(t)[0]);
  }

  lemma {:induction false} JoinedReported(cfg: Config, v: View, c: char, x: string, optional: bool)
    requires v.unread != [] && v.place == [c] + x && x != "" && KindOf(cfg.Letters(), c) == WithArgument(optional)
    ensures Step(cfg, v) == (v.Take(1), Result(c as int, Some(x), None, None))
  {
    assert v.place[1..] == x;
  }

  lemma {:induction false} ApartReported(cfg: Config, v: View, c: char, x: string)
    requires |v.unread| >= 2 && v.place == [c] && v.unread[1] == x && KindOf(cfg.Letters(), c) == WithArgument(false)
    ensures Step(cfg, v) == (v.Take(2), Result(c as int, Some(x), None, None))
  {
  }

  lemma Drops(v: View, x: string, rest: seq<string>)
    requires v.unread != [] && v.unread[1..] == [x] + rest
    ensures |v.unread| >= 2 && v.unread[1] == x && v.unread[2..] == rest
  {
    assert v.unread[1] == v.unread[1..][0] && v.unread[2..] == v.unread[1..][1..];
  }

  /** A letter with its argument. */
  lemma {:induction false} ArgumentReported(cfg: Config, v: View, c: char, x: string, joined: bool, optional: bool,
                                            rest: seq<string>)
    requires InCluster(v, "", Argument(c, x, joined), rest) && KindOf(cfg.Letters(), c) == WithArgument(optional)
    requires if joined then x != "" else !optional
    ensures Step(cfg, v).1 == Result(c as int, Some(x), None, None)
    ensures Step(cfg, v).0.place == "" && Step(cfg, v).0.unread == rest
  {
    if joined {
      assert [] + rest == rest;
      JoinedReported(cfg, v, c, x, optional);
    } else {
      Drops(v, x, rest);
      ApartReported(cfg, v, c, x);
    }
  }

  /** A letter without one, where it may or must. */
  lemma {:induction false} AloneReported(cfg: Config, v: View, c: char, optional: bool, rest: seq<string>)
    requires v.unread != [] && v.unread[1..] == rest && v.place == [c]
    requires KindOf(cfg.Letters(), c) == WithArgument(optional) && (optional || rest == [])
    ensures Step(cfg, v).1 ==
      if optional then Result(c as int, None, None, None) else Result(Complaint(cfg), None, Some(c as int), None)
    ensures Step(cfg, v).0.place == "" && Step(cfg, v).0.unread == rest
  {
    Modes(cfg);
  }

  lemma {:induction false} PrefixJoined(cfg: Config, v: View, p: LongText, rest: seq<string>)
    requires v.unread != [] && v.place == "W" + TextOf(p) && v.unread[1..] == NextOf(p) + rest
    requires LongFits(cfg, p, rest) && KindOf(cfg.Letters(), 'W') == LongPrefix
    ensures Step(cfg, v).1 == LongSays(cfg, p) && Step(cfg, v).0.place == "" && Step(cfg, v).0.unread == rest
  {
    assert v.place[1..] == TextOf(p);
    LongReported(cfg, v.Take(1), p, rest);
  }

  lemma {:induction false} PrefixApart(cfg: Config, v: View, p: LongText, rest: seq<string>)
    requires v.unread != [] && v.place == "W" && v.unread[1..] == [TextOf(p)] + (NextOf(p) + rest)
    requires LongFits(cfg, p, rest) && KindOf(cfg.Letters(), 'W') == LongPrefix
    ensures Step(cfg, v).1 == LongSays(cfg, p) && Step(cfg, v).0.place == "" && Step(cfg, v).0.unread == rest
  {
    Drops(v, TextOf(p), NextOf(p) + rest);
    TakeTake(v, 1, 1);
    LongReported(cfg, v.Take(2), p, rest);
  }

  lemma {:induction false} PrefixShape(p: LongText, joined: bool, rest: seq<string>)
    ensures Extra(Prefix(p, joined)) + rest == if joined then NextOf(p) + rest else [TextOf(p)] + (NextOf(p) + rest)
  {
    var t, n := [TextOf(p)], NextOf(p);
    if joined { assert [] + n == n; } else { assert (t + n) + rest == t + (n + rest); }
  }

  lemma {:induction false} PrefixReported(cfg: Config, v: View, p: LongText, joined: bool, rest: seq<string>)
    requires InCluster(v, "", Prefix(p, joined), rest)
    requires LongFits(cfg, p, rest) && KindOf(cfg.Letters(), 'W') == LongPrefix
    ensures Step(cfg, v).1 == LongSays(cfg, p) && Step(cfg, v).0.place == "" && Step(cfg, v).0.unread == rest
  {
    PrefixShape(p, joined, rest);
    if joined { PrefixJoined(cfg, v, p, rest); } else { PrefixApart(cfg, v, p, rest); }
  }

  lemma {:induction false} PrefixStops(cfg: Config, v: View, t: Tail, rest: seq<string>)
    requires InCluster(v, "", t, rest) && TailFits(cfg, t, rest) && (t.PrefixEnd? || t.PrefixLacking?)
    ensures t.PrefixEnd? ==> Step(cfg, v).1 == Done
    ensures t.PrefixLacking? ==>
      [Step(cfg, v).1] == TailSays(cfg, t) && Step(cfg, v).0.place == "" && Step(cfg, v).0.unread == rest
  {
    Modes(cfg);
    TailLetter(cfg, t, rest);
    if t.PrefixEnd? { assert v.unread[1] == v.unread[1..][0]; }
  }

  lemma {:induction false} TailReported(cfg: Config, v: View, t: Tail, rest: seq<string>)
    requires InCluster(v, "", t, rest) && TailFits(cfg, t, rest) && (t.Argument? && t.joined ==> t.x != "")
    ensures Run(cfg, v).1 == TailSays(cfg, t) + Onward(cfg, EndsAt(t), rest)
  {
    NextEvent(cfg, v);
    match t
    case Prefix(p, joined) =>
      TailLetter(cfg, t, rest);
      PrefixReported(cfg, v, p, joined, rest);
    case PrefixEnd => PrefixStops(cfg, v, t, rest);
    case PrefixLacking => PrefixStops(cfg, v, t, rest);
    case Argument(c, x, joined) =>
      TailLetter(cfg, t, rest);
      ArgumentReported(cfg, v, c, x, joined, !Declares(Declared(cfg), c, RequiredArgument), rest);
    case Alone(c) =>
      TailLetter(cfg, t, rest);
      AloneReported(cfg, v, c, true, rest);
    case Lacking(c) =>
      TailLetter(cfg, t, rest);
      AloneReported(cfg, v, c, false, rest);
  }

  lemma {:induction false} FlagReported(cfg: Config, v: View)
    requires v.Valid() && v.place != ""
    requires Declares(Declared(cfg), v.place[0], NoArgument) || Undeclared(Declared(cfg), v.place[0])
    ensures Step(cfg, v) == (v.NextLetter(), FlagSays(Declared(cfg), v.place[0]))
  {
    Modes(cfg);
    KindExact(Declared(cfg), v.place[0]);
  }

  /** The reports of a cluster: its flags', its tail's, and what comes behind. */
  ghost function ClusterSays(cfg: Config, flags: string, t: Tail, rest: seq<string>): seq<Event> {
    FlagsSay(Declared(cfg), flags) + (TailSays(cfg, t) + Onward(cfg, EndsAt(t), rest))
  }

  lemma {:induction false} FlagsFirst(cfg: Config, flags: string, t: Tail, rest: seq<string>)
    requires flags != ""
    ensures ClusterSays(cfg, flags, t, rest) ==
      [FlagSays(Declared(cfg), flags[0])] + ClusterSays(cfg, flags[1..], t, rest)
  {
  }

  lemma {:induction false} LastFlag(cfg: Config, v: View, rest: seq<string>)
    requires |v.place| == 1 && v.unread != [] && v.unread[1..] == rest && AllFlags(Declared(cfg), v.place)
    ensures Run(cfg, v).1 == ClusterSays(cfg, v.place, NoTail, rest)
  {
    FlagReported(cfg, v);
    NextEvent(cfg, v);
    FlagsFirst(cfg, v.place, NoTail, rest);
    assert v.place[1..] == "" && ClusterSays(cfg, "", NoTail, rest) == Events(cfg, rest);
  }

  lemma {:induction false} ClusterReported(cfg: Config, v: View, flags: string, t: Tail, rest: seq<string>)
    requires InCluster(v, flags, t, rest) && AllFlags(Declared(cfg), flags) && TailFits(cfg, t, rest)
    requires t.Argument? && t.joined ==> t.x != ""
    ensures Run(cfg, v).1 == ClusterSays(cfg, flags, t, rest)
    decreases |flags|
  {
    if flags == "" {
      TailReported(cfg, v, t, rest);
    } else if |v.place| == 1 {
      LoneFlag(v, flags, t, rest);
      LastFlag(cfg, v, rest);
    } else {
      assert v.place[0] == flags[0] && v.place[1..] == flags[1..] + Body(t);
      FlagReported(cfg, v);
      NextEvent(cfg, v);
      FlagsFirst(cfg, flags, t, rest);
      ClusterReported(cfg, v.NextLetter(), flags[1..], t, rest);
    }
  }

  lemma LoneFlag(v: View, flags: string, t: Tail, rest: seq<string>)
    requires InCluster(v, flags, t, rest) && |v.place| == 1 && flags != ""
    ensures t == NoTail && flags == v.place && v.unread[1..] == rest
  {
    assert Body(t) == "";
    assert flags + "" == flags && [] + rest == rest;
  }

  // ----- whole lists -----

  lemma {:induction false} LongItem(cfg: Config, p: LongText, rest: seq<string>)
    requires LongFits(cfg, p, rest)
    ensures Events(cfg, ["--" + TextOf(p)] + NextOf(p) + rest) == [LongSays(cfg, p)] + Events(cfg, rest)
  {
    var args := ["--" + TextOf(p)] + NextOf(p) + rest;
    var v := View([], [], args, "");
    assert args[0] == "--" + TextOf(p) && args[0][2..] == TextOf(p);
    assert args[1..] == NextOf(p) + rest;
    LongReported(cfg, v.Take(1), p, rest);
    NextEvent(cfg, v);
  }

  lemma {:induction false} ClusterItem(cfg: Config, flags: string, t: Tail, rest: seq<string>)
    requires Fits(cfg, Cluster(flags, t), rest)
    ensures Events(cfg, ["-" + flags + Body(t)] + Extra(t) + rest) == ClusterSays(cfg, flags, t, rest)
  {
    var letters := flags + Body(t);
    var args := ["-" + flags + Body(t)] + Extra(t) + rest;
    var v := View([], [], args, "");
    assert args[0] == "-" + letters && args[0][1..] == letters && args[0][1] == letters[0];
    assert args[1..] == Extra(t) + rest;
    var w := v.(place := letters);
    ClusterReported(cfg, w, flags, t, rest);
    assert Step(cfg, v) == Step(cfg, w);
    NextEvent(cfg, v);
    NextEvent(cfg, w);
  }

  lemma {:induction false} EndItem(cfg: Config, rest: seq<string>)
    ensures Events(cfg, ["--"] + rest) == [Done]
  {
    var v := View([], [], ["--"] + rest, "");
    assert v.unread[0] == "--" && v.unread[0][2..] == "";
    NextEvent(cfg, v);
  }

  /** The events of an item, whatever stands behind it. */
  lemma {:induction false} ItemReported(cfg: Config, item: Item, rest: seq<string>)
    requires Fits(cfg, item, rest)
    ensures Events(cfg, Spell(item) + rest) == Says(cfg, item) + Onward(cfg, Ends(cfg, item), rest)
  {
    match item
    case Word(text) => WordReported(cfg, text, rest);
    case End => EndItem(cfg, rest);
    case Named(p) => LongItem(cfg, p, rest);
    case Cluster(flags, t) =>
      ClusterItem(cfg, flags, t, rest);
      var a, b, c := FlagsSay(Declared(cfg), flags), TailSays(cfg, t), Onward(cfg, EndsAt(t), rest);
      assert a + (b + c) == (a + b) + c;
  }

  lemma {:induction false} WordReported(cfg: Config, text: string, rest: seq<string>)
    requires Fits(cfg, Word(text), rest)
    ensures Events(cfg, [text] + rest) == Says(cfg, Word(text)) + Onward(cfg, Ends(cfg, Word(text)), rest)
  {
    var v := View([], [], [text] + rest, "");
    Modes(cfg);
    NextEvent(cfg, v);
    assert v.unread[0] == text && v.unread[1..] == rest && IsNonOption(text);
    if Permuting(cfg) {
      RunFresh(cfg, v.Skip());
      NextEvent(cfg, v.Skip());
    }
  }

  function SpellAll(items: seq<Item>): seq<string> {
    if items == [] then [] else Spell(items[0]) + SpellAll(items[1..])
  }

  /** Items one after the other, the last of which may end the run before the arguments `extra`. */
  ghost predicate AllFit(cfg: Config, items: seq<Item>, extra: seq<string>) {
    if items == [] then extra == []
    else
      && Fits(cfg, items[0], SpellAll(items[1..]) + extra)
      && if Ends(cfg, items[0]) then items[1..] == [] else AllFit(cfg, items[1..], extra)
  }

  ghost function SaysAll(cfg: Config, items: seq<Item>): seq<Event> {
    if items == [] then [Done] else Says(cfg, items[0]) + SaysAll(cfg, items[1..])
  }

  /** Whatever way the options are spelled, the calls report exactly what they say, in order. */
  lemma {:induction false} SpelledRun(cfg: Config, items: seq<Item>, extra: seq<string>)
    requires AllFit(cfg, items, extra)
    ensures Events(cfg, SpellAll(items) + extra) == SaysAll(cfg, items)
  {
    if items == [] {
      NextEvent(cfg, View([], [], [], ""));
    } else {
      var rest := SpellAll(items[1..]) + extra;
      ItemReported(cfg, items[0], rest);
      SpellFirst(items, extra);
      if !Ends(cfg, items[0]) { SpelledRun(cfg, items[1..], extra); }
    }
  }

  lemma SpellFirst(items: seq<Item>, extra: seq<string>)
    requires items != []
    ensures SpellAll(items) + extra == Spell(items[0]) + (SpellAll(items[1..]) + extra)
  {
  }

  // ----- every argument list is spelled somehow -----

  lemma {:induction false} ReadLong(cfg: Config, text: string, more: seq<string>) returns (p: LongText, used: nat)
    requires text != ""
    ensures TextOf(p) == text && used <= |more| && more == NextOf(p) + more[used..] && LongFits(cfg, p, more[used..])
  {
    var eq := IndexOf(text, '=');
    var name := text[..eq];
    var value := if eq < |text| then Some(text[eq + 1..]) else None;
    assert text == if value.Some? then name + "=" + value.value else name;
    var m := LongMatch(cfg.longs, name);
    forall i: nat ensures Means(cfg.longs, name, i) <==> m == Found(i) { MatchExact(cfg.longs, name, i); }
    var target := if m.Found? then Some(m.index) else None;
    p := LongText(name, value, None, target);
    used := 0;
    if Wants(cfg, p) && more != [] {
      p := p.(next := Some(more[0]));
      used := 1;
    }
  }

  lemma {:induction false} ReadJoined(cfg: Config, text: string, more: seq<string>) returns (p: LongText, used: nat)
    requires |text| > 1 && text[0] == 'W'
    ensures text == "W" + TextOf(p) && used <= |more| && LongFits(cfg, p, more[used..])
    ensures more == Extra(Prefix(p, true)) + more[used..]
  {
    p, used := ReadLong(cfg, text[1..], more);
    assert text == "W" + text[1..];
    PrefixShape(p, true, more[used..]);
  }

  lemma {:induction false} ReadApart(cfg: Config, more: seq<string>) returns (p: LongText, used: nat)
    requires more != [] && more[0] != ""
    ensures used <= |more| && LongFits(cfg, p, more[used..]) && more == Extra(Prefix(p, false)) + more[used..]
  {
    var n;
    p, n := ReadLong(cfg, more[0], more[1..]);
    used := n + 1;
    ConsArgs(more, more[0], NextOf(p), n);
    PrefixShape(p, false, more[used..]);
    Reassoc([more[0]], NextOf(p), more[used..]);
  }

  lemma {:induction false} ReadPrefix(cfg: Config, text: string, more: seq<string>) returns (t: Tail, used: nat)
    requires DeclaresPrefix(Declared(cfg)) && text != "" && text[0] == 'W'
    ensures text == Body(t) && used <= |more| && more == Extra(t) + more[used..] && TailFits(cfg, t, more[used..])
    ensures !t.Argument?
  {
    var p;
    if |text| > 1 {
      p, used := ReadJoined(cfg, text, more);
      t := Prefix(p, true);
    } else if more == [] {
      t, used := PrefixLacking, 0;
    } else if more[0] == "" {
      t, used := PrefixEnd, 1;
    } else {
      p, used := ReadApart(cfg, more);
      t := Prefix(p, false);
    }
  }

  lemma {:induction false} ReadArgument(cfg: Config, text: string, more: seq<string>, optional: bool)
    returns (t: Tail, used: nat)
    requires text != "" && Declares(Declared(cfg), text[0], if optional then OptionalArgument else RequiredArgument)
    ensures text == Body(t) && used <= |more| && more == Extra(t) + more[used..] && TailFits(cfg, t, more[used..])
    ensures t.Argument? && t.joined ==> t.x != ""
  {
    used := 0;
    if |text| > 1 {
      t := Argument(text[0], text[1..], true);
      assert text == [text[0]] + text[1..];
    } else if optional {
      t := Alone(text[0]);
    } else if more == [] {
      t := Lacking(text[0]);
    } else {
      t, used := Argument(text[0], more[0], false), 1;
    }
  }

  lemma ConsText(c: char, text: string, f: string, b: string)
    requires text != "" && text[0] == c && text[1..] == f + b
    ensures text == ([c] + f) + b
  {
  }

  lemma {:induction false} ConsFlag(letters: string, c: char, f: string)
    requires AllFlags(letters, f) && (Declares(letters, c, NoArgument) || Undeclared(letters, c))
    ensures AllFlags(letters, [c] + f)
  {
  }

  /** The letters of a cluster, taken apart. */
  lemma {:induction false} ReadCluster(cfg: Config, text: string, more: seq<string>)
    returns (flags: string, t: Tail, used: nat)
    ensures text == flags + Body(t) && AllFlags(Declared(cfg), flags)
    ensures used <= |more| && more == Extra(t) + more[used..] && TailFits(cfg, t, more[used..])
    ensures t.Argument? && t.joined ==> t.x != ""
  {
    flags, t, used := "", NoTail, 0;
    if text != "" {
      var c := text[0];
      SomeDeclaration(Declared(cfg), c);
      match KindOf(Declared(cfg), c)
      case LongPrefix => t, used := ReadPrefix(cfg, text, more);
      case WithArgument(optional) => t, used := ReadArgument(cfg, text, more, optional);
      case _ =>
        var f;
        f, t, used := ReadCluster(cfg, text[1..], more);
        flags := [c] + f;
        ConsText(c, text, f, Body(t));
        ConsFlag(Declared(cfg), c, f);
    }
  }

  lemma ConsArgs(args: seq<string>, a: string, x: seq<string>, n: nat)
    requires args != [] && args[0] == a && n <= |args[1..]| && args[1..] == x + args[1..][n..]
    ensures args == [a] + x + args[n + 1..] && args[1..][n..] == args[n + 1..]
  {
  }

  lemma {:induction false} ReadShort(cfg: Config, args: seq<string>) returns (item: Item, used: nat)
    requires args != [] && |args[0]| >= 2 && args[0][0] == '-' && args[0][1] != '-'
    ensures 1 <= used <= |args| && args == Spell(item) + args[used..] && Fits(cfg, item, args[used..])
  {
    var flags, t, n := ReadCluster(cfg, args[0][1..], args[1..]);
    item, used := Cluster(flags, t), n + 1;
    assert args[0] == "-" + flags + Body(t);
    ConsArgs(args, args[0], Extra(t), n);
  }

  lemma {:induction false} ReadName(cfg: Config, args: seq<string>) returns (item: Item, used: nat)
    requires args != [] && |args[0]| > 2 && args[0][0] == '-' && args[0][1] == '-'
    ensures 1 <= used <= |args| && args == Spell(item) + args[used..] && Fits(cfg, item, args[used..])
  {
    var p, n := ReadLong(cfg, args[0][2..], args[1..]);
    item, used := Named(p), n + 1;
    assert args[0] == "--" + TextOf(p);
    ConsArgs(args, args[0], NextOf(p), n);
  }

  lemma {:induction false} ReadItem(cfg: Config, args: seq<string>) returns (item: Item, used: nat)
    requires args != []
    ensures 1 <= used <= |args| && args == Spell(item) + args[used..] && Fits(cfg, item, args[used..])
  {
    var a := args[0];
    if a == "" || a == "-" || a[0] != '-' {
      item, used := Word(a), 1;
    } else if a[1] != '-' {
      item, used := ReadShort(cfg, args);
    } else if |a| == 2 {
      item, used := End, 1;
      assert a == "--";
    } else {
      item, used := ReadName(cfg, args);
    }
  }

  /** Every argument list is some items, spelled one after the other: what the calls report of it
      is what these say. */
  lemma {:induction false} EveryRun(cfg: Config, args: seq<string>) returns (items: seq<Item>, extra: seq<string>)
    ensures args == SpellAll(items) + extra && AllFit(cfg, items, extra) && Events(cfg, args) == SaysAll(cfg, items)
    decreases |args|
  {
    items, extra := [], [];
    if args != [] {
      var item, used := ReadItem(cfg, args);
      if Ends(cfg, item) {
        items, extra := [item], args[used..];
        assert items[1..] == [] && SpellAll(items) == Spell(item) + SpellAll([]);
        assert SpellAll([]) + extra == extra;
      } else {
        var rest;
        rest, extra := EveryRun(cfg, args[used..]);
        items := [item] + rest;
        assert items[1..] == rest;
        SpellFirst(items, extra);
      }
    }
    SpelledRun(cfg, items, extra);
  }

  // ----- spellings that say the same -----

  /** A cluster's events, with its first argument and the others given. */
  lemma {:induction false} ClusterAs(cfg: Config, arg: string, flags: string, t: Tail, rest: seq<string>,
                                     more: seq<string>)
    requires arg == "-" + flags + Body(t) && rest == Extra(t) + more && Fits(cfg, Cluster(flags, t), more)
    ensures Events(cfg, [arg] + rest) == ClusterSays(cfg, flags, t, more)
  {
    ClusterItem(cfg, flags, t, more);
    Reassoc([arg], Extra(t), more);
  }

  lemma Hyphen(s: string)
    ensures "-" + "" + s == "-" + s
  {
  }

  /** An argument can be joined to its letter or stand behind it. */
  lemma {:induction false} JoinedOrApart(cfg: Config, c: char, x: string, rest: seq<string>)
    requires Declares(Declared(cfg), c, RequiredArgument) && c != '-' && x != ""
    ensures Events(cfg, ["-" + ([c] + x)] + rest) == Events(cfg, ["-" + [c]] + ([x] + rest))
    ensures Events(cfg, ["-" + [c]] + ([x] + rest)) == [Result(c as int, Some(x), None, None)] + Events(cfg, rest)
  {
    Hyphen([c] + x);
    Hyphen([c]);
    assert [] + rest == rest;
    ClusterAs(cfg, "-" + ([c] + x), "", Argument(c, x, true), rest, rest);
    ClusterAs(cfg, "-" + [c], "", Argument(c, x, false), [x] + rest, rest);
  }

  /** Flags can be clustered or stand alone. */
  lemma {:induction false} ClusteredOrAlone(cfg: Config, c: char, x: string, rest: seq<string>)
    requires Declares(Declared(cfg), c, NoArgument) && c != '-' && x != "" && x[0] != '-'
    ensures Events(cfg, ["-" + ([c] + x)] + rest) == Events(cfg, ["-" + [c]] + (["-" + x] + rest))
  {
    var flags, t, used := ReadCluster(cfg, x, rest);
    var more, f := rest[used..], [c] + flags;
    assert f[1..] == flags && "-" + f + Body(t) == "-" + ([c] + x) && "-" + flags + Body(t) == "-" + x;
    ConsFlag(Declared(cfg), c, flags);
    ClusterAs(cfg, "-" + ([c] + x), f, t, rest, more);
    ClusterAs(cfg, "-" + x, flags, t, rest, more);
    FlagsFirst(cfg, f, t, more);
    AloneFlag(cfg, c, ["-" + x] + rest);
  }

  lemma {:induction false} AloneFlag(cfg: Config, c: char, rest: seq<string>)
    requires Declares(Declared(cfg), c, NoArgument) && c != '-'
    ensures Events(cfg, ["-" + [c]] + rest) == [FlagSays(Declared(cfg), c)] + Events(cfg, rest)
  {
    assert "-" + [c] + "" == "-" + [c] && [] + rest == rest && [c][1..] == "";
    ClusterAs(cfg, "-" + [c], [c], NoTail, rest, rest);
    FlagsFirst(cfg, [c], NoTail, rest);
    assert ClusterSays(cfg, "", NoTail, rest) == Events(cfg, rest);
  }

  ghost predicate Target(cfg: Config, name: string, i: nat) {
    Means(cfg.longs, name, i) && '=' !in name && name != ""
  }

  lemma {:induction false} OneMeaning(longs: seq<LongOption>, name: string, i: nat)
    requires Means(longs, name, i)
    ensures forall j: nat :: Means(longs, name, j) <==> j == i
  {
    forall j: nat ensures Means(longs, name, j) <==> j == i {
      MatchExact(longs, name, i);
      MatchExact(longs, name, j);
    }
  }

  /** A long option's event, with its first argument and the others given. */
  lemma {:induction false} LongAs(cfg: Config, arg: string, p: LongText, rest: seq<string>, more: seq<string>)
    requires arg == "--" + TextOf(p) && rest == NextOf(p) + more && LongFits(cfg, p, more)
    ensures Events(cfg, [arg] + rest) == [LongSays(cfg, p)] + Events(cfg, more)
  {
    LongItem(cfg, p, more);
    Reassoc([arg], NextOf(p), more);
  }

  /** What the option meant reports with the given value before the arguments `rest`. */
  ghost function NameSays(cfg: Config, i: nat, value: Option<string>, rest: seq<string>): seq<Event>
    requires i < |cfg.longs|
  {
    var wants := cfg.longs[i].hasArg == RequiredArgument && value.None? && rest != [];
    var p := LongText("", value, if wants then Some(rest[0]) else None, Some(i));
    [LongSays(cfg, p)] + Events(cfg, if wants then rest[1..] else rest)
  }

  lemma {:induction false} NameReported(cfg: Config, a: string, i: nat, value: Option<string>, rest: seq<string>)
    requires Target(cfg, a, i)
    ensures Events(cfg, ["--" + TextOf(LongText(a, value, None, None))] + rest) == NameSays(cfg, i, value, rest)
  {
    OneMeaning(cfg.longs, a, i);
    var wants := cfg.longs[i].hasArg == RequiredArgument && value.None? && rest != [];
    var p := LongText(a, value, if wants then Some(rest[0]) else None, Some(i));
    var more := if wants then rest[1..] else rest;
    assert rest == NextOf(p) + more;
    LongAs(cfg, "--" + TextOf(p), p, rest, more);
  }

  /** The argument of a long option can follow '=' or stand behind it. */
  lemma {:induction false} EqualsOrApart(cfg: Config, name: string, x: string, i: nat, rest: seq<string>)
    requires Target(cfg, name, i) && cfg.longs[i].hasArg == RequiredArgument
    ensures Events(cfg, ["--" + (name + "=" + x)] + rest) == Events(cfg, ["--" + name] + ([x] + rest))
    ensures Events(cfg, ["--" + name] + ([x] + rest)) ==
      [Result(if cfg.longs[i].hasFlag then 0 else cfg.longs[i].val, Some(x), None, Some(i))] + Events(cfg, rest)
  {
    NameReported(cfg, name, i, Some(x), rest);
    NameReported(cfg, name, i, None, [x] + rest);
    assert ([x] + rest)[1..] == rest;
  }

  /** Two names that mean the same option are reported alike, with or without a value. */
  lemma {:induction false} SameName(cfg: Config, a: string, b: string, i: nat, value: Option<string>, rest: seq<string>)
    requires Target(cfg, a, i) && Target(cfg, b, i)
    ensures Events(cfg, ["--" + TextOf(LongText(a, value, None, None))] + rest) ==
            Events(cfg, ["--" + TextOf(LongText(b, value, None, None))] + rest)
  {
    NameReported(cfg, a, i, value, rest);
    NameReported(cfg, b, i, value, rest);
  }

  /** An abbreviation of one name only means what that name means. */
  lemma {:induction false} Abbreviation(longs: seq<LongOption>, a: string, i: nat)
    requires i < |longs| && a <= longs[i].name && forall j :: 0 <= j < |longs| && j != i ==> !(a <= longs[j].name)
    ensures Means(longs, a, i) && Means(longs, longs[i].name, i)
  {
    var b := longs[i].name;
    forall j | 0 <= j < |longs| && j != i ensures !(b <= longs[j].name) {
      if b <= longs[j].name { Shorter(a, b, longs[j].name); }
    }
  }

  lemma Shorter(a: string, b: string, c: string)
    requires a <= b && b <= c
    ensures a <= c
  {
  }

  lemma {:induction false} BehindJoined(cfg: Config, p: LongText, rest: seq<string>, more: seq<string>)
    requires DeclaresPrefix(Declared(cfg)) && LongFits(cfg, p, more) && rest == NextOf(p) + more
    ensures Events(cfg, ["-" + ("W" + TextOf(p))] + rest) == [LongSays(cfg, p)] + Events(cfg, more)
  {
    Hyphen("W" + TextOf(p));
    PrefixShape(p, true, more);
    ClusterAs(cfg, "-" + ("W" + TextOf(p)), "", Prefix(p, true), rest, more);
  }

  lemma {:induction false} BehindApart(cfg: Config, p: LongText, rest: seq<string>, more: seq<string>)
    requires DeclaresPrefix(Declared(cfg)) && LongFits(cfg, p, more) && rest == NextOf(p) + more
    ensures Events(cfg, ["-" + "W"] + ([TextOf(p)] + rest)) == [LongSays(cfg, p)] + Events(cfg, more)
  {
    Hyphen("W");
    PrefixShape(p, false, more);
    ClusterAs(cfg, "-" + "W", "", Prefix(p, false), [TextOf(p)] + rest, more);
  }

  /** A long option can be given behind W, joined or apart, if W is declared so. */
  lemma {:induction false} PrefixOrDashes(cfg: Config, text: string, rest: seq<string>)
    requires DeclaresPrefix(Declared(cfg)) && text != ""
    ensures Events(cfg, ["-" + ("W" + text)] + rest) == Events(cfg, ["--" + text] + rest)
    ensures Events(cfg, ["-" + "W"] + ([text] + rest)) == Events(cfg, ["--" + text] + rest)
  {
    var p, used := ReadLong(cfg, text, rest);
    LongAs(cfg, "--" + text, p, rest, rest[used..]);
    BehindJoined(cfg, p, rest, rest[used..]);
    BehindApart(cfg, p, rest, rest[used..]);
  }

  /** The whole parse of argv in place: the events are what the arguments say as they are spelled. */
  method ParseSpelled(p: Parser) returns (events: seq<Event>, ghost items: seq<Item>, ghost extra: seq<string>)
    requires p.Valid() && p.Abs() == View([], [], p.argv[1..], "")
    requires forall l :: l in p.cfg.longs ==> l.hasFlag || l.val != -1
    modifies p, p.argv
    ensures old(p.argv[1..]) == SpellAll(items) + extra && AllFit(p.cfg, items, extra)
    ensures events == SaysAll(p.cfg, items)
  {
    items, extra := EveryRun(p.cfg, p.argv[1..]);
    events := ParseAll(p);
  }
}
