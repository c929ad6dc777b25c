/** The server's OK response: authorization data and a list of credentials of any length. */
module Response {
  import opened Common
  import opened Lookup
  import opened Numbers

  // ----- authorization methods -----

  datatype Method = NoMethod | Password | Certificate | Sasl

  /** The table of supported methods. */
  function MethodName(m: Method): string {
    match m
    case Password => "password"
    case Sasl => "SASL"
    case Certificate => "X509_certificate"
    case NoMethod => "unknown"
  }

  /** The method a name stands for; a name outside the table stands for none. */
  function MethodOf(name: string): Method {
    if name == "password" then Password
    else if name == "SASL" then Sasl
    else if name == "X509_certificate" then Certificate
    else NoMethod
  }

  datatype Auth = Auth(mechanism: Method, data: string)

  function AuthText(a: Auth): string { MethodName(a.mechanism) + ":" + a.data }

  /** Put an entry in front of what follows it; an entry of an unknown method is skipped. */
  function Push(a: Auth, rest: Option<seq<Auth>>): Option<seq<Auth>> {
    if rest.None? || a.mechanism == NoMethod then rest else Some([a] + rest.value)
  }

  /** Parse the joined authorization lines: a method name up to the first colon, its data up to
      the end of the line. */
  function ParseAuth(s: string): Option<seq<Auth>>
    decreases |s|
  {
    match Split(s, ':')
    case None => None
    case Some((name, str)) =>
      match Split(str, '\n')
      case None => Push(Auth(MethodOf(name), str), Some([]))
      case Some((data, rest)) => Push(Auth(MethodOf(name), data), ParseAuth(rest))
  }

  lemma {:induction false} MethodNames(m: Method)
    ensures ':' !in MethodName(m) && OneLine(MethodName(m))
    ensures m != NoMethod ==> MethodOf(MethodName(m)) == m
    ensures MethodName(Password) == "password" && MethodName(Sasl) == "SASL"
    ensures MethodName(Certificate) == "X509_certificate"
  {
  }

  lemma {:induction false} ParseLast(a: Auth)
    requires a.mechanism != NoMethod && OneLine(a.data)
    ensures ParseAuth(AuthText(a)) == Some([a])
  {
    var name := MethodName(a.mechanism);
    MethodNames(a.mechanism);
    assert AuthText(a) == name + [':'] + a.data;
    SplitAt(name, ':', a.data);
    SplitNone(a.data, '\n');
    assert [a] + [] == [a];
  }

  lemma {:induction false} ParseNext(a: Auth, tail: string)
    requires a.mechanism != NoMethod && OneLine(a.data)
    ensures ParseAuth(AuthText(a) + "\n" + tail) == Push(a, ParseAuth(tail))
  {
    var name := MethodName(a.mechanism);
    MethodNames(a.mechanism);
    assert AuthText(a) + "\n" + tail == name + [':'] + (a.data + ['\n'] + tail);
    SplitAt(name, ':', a.data + ['\n'] + tail);
    SplitAt(a.data, '\n', tail);
  }

  /** An entry of a method that is not known is passed over, and one without a colon is refused. */
  lemma {:induction false} StrangeAuth(name: string, data: string, tail: string)
    requires ':' !in name && OneLine(data) && name !in {"password", "SASL", "X509_certificate"}
    ensures ParseAuth(name + ":" + data) == Some([])
    ensures ParseAuth(name + ":" + data + "\n" + tail) == ParseAuth(tail)
    ensures ParseAuth(name) == None
  {
    assert name + ":" + data + "\n" + tail == name + [':'] + (data + ['\n'] + tail);
    SplitAt(name, ':', data + ['\n'] + tail);
    SplitAt(data, '\n', tail);
    assert name + ":" + data == name + [':'] + data;
    SplitAt(name, ':', data);
    SplitNone(data, '\n');
    SplitNone(name, ':');
  }

  /** The parser inverts writing one line per entry. */
  lemma {:induction false} AuthRoundTrip(auth: seq<Auth>)
    requires auth != [] && AllKnown(auth)
    ensures ParseAuth(Join(AuthTexts(auth))) == Some(auth)
  {
    var a, rest := auth[0], auth[1..];
    assert auth == [a] + rest;
    if rest == [] {
      assert auth == [a] && AuthTexts(auth) == [AuthText(a)];
      ParseLast(a);
    } else {
      AuthRoundTrip(rest);
      ParseNext(a, Join(AuthTexts(rest)));
      JoinPush(AuthText(a), AuthTexts(rest));
    }
  }

  lemma JoinPush(x: string, xs: seq<string>)
    requires xs != []
    ensures Join([x] + xs) == x + "\n" + Join(xs)
  {
    assert ([x] + xs)[1..] == xs;
  }

  predicate AllKnown(auth: seq<Auth>) {
    forall i :: 0 <= i < |auth| ==> auth[i].mechanism != NoMethod && OneLine(auth[i].data)
  }

  function AuthTexts(auth: seq<Auth>): (ts: seq<string>)
    ensures |ts| == |auth|
  {
    if auth == [] then [] else [AuthText(auth[0])] + AuthTexts(auth[1..])
  }

  // ----- the names of the additional credentials -----

  function JoinNames(names: seq<string>): string {
    if names == [] then ""
    else if |names| == 1 then names[0]
    else names[0] + "," + JoinNames(names[1..])
  }

  /** A name ends at a comma; a name with no further comma, or an empty one, takes all the rest. */
  function ParseNames(s: string): seq<string>
    decreases |s|
  {
    match Split(s, ',')
    case None => [s]
    case Some((name, rest)) => if name == "" then [s] else [name] + ParseNames(rest)
  }

  predicate AllNames(names: seq<string>) {
    forall i :: 0 <= i < |names| ==> names[i] != "" && ',' !in names[i]
  }

  lemma {:induction false} NamesRoundTrip(names: seq<string>)
    requires names != [] && AllNames(names)
    ensures ParseNames(JoinNames(names)) == names
  {
    var n := names[0];
    if |names| == 1 {
      SplitNone(n, ',');
    } else {
      var tail := JoinNames(names[1..]);
      assert JoinNames(names) == n + [','] + tail;
      SplitAt(n, ',', tail);
      NamesRoundTrip(names[1..]);
    }
  }

  // ----- the error text, one line per field -----

  /** The lines of an error text; a last line is written only when it is not empty. */
  function ErrorLines(s: string): seq<string>
    decreases |s|
  {
    match Split(s, '\n')
    case None => if s == "" then [] else [s]
    case Some((line, rest)) => [line] + ErrorLines(rest)
  }

  /** What the reader gets back: the text without one trailing line break. */
  function Chomp(s: string): string {
    if s != "" && s[|s| - 1] == '\n' then s[..|s| - 1] else s
  }

  lemma ChompLine(line: string, rest: string)
    requires rest != ""
    ensures Chomp(line + "\n" + rest) == line + "\n" + Chomp(rest)
  {
    var s := line + "\n" + rest;
    assert s[|s| - 1] == rest[|rest| - 1];
    assert s[..|s| - 1] == line + "\n" + rest[..|rest| - 1];
  }

  lemma {:induction false} NoLines(s: string)
    ensures ErrorLines(s) == [] <==> s == ""
  {
  }

  lemma {:induction false} ErrorRoundTrip(s: string)
    ensures Join(ErrorLines(s)) == Chomp(s)
    decreases |s|
  {
    SplitParts(s, '\n');
    match Split(s, '\n')
    case None =>
    case Some((line, rest)) =>
      ErrorRoundTrip(rest);
      NoLines(rest);
      if rest == "" {
        assert s == line + "\n";
      } else {
        JoinPush(line, ErrorLines(rest));
        ChompLine(line, rest);
      }
  }

  // ----- keys -----

  datatype Item = Name | Desc | Start | End | Owner | Retriever | KeyRetrievers | RetrieverTrusted | Renewer | LockMsg

  const ITEMS := [Name, Desc, Start, End, Owner, Retriever, KeyRetrievers, RetrieverTrusted, Renewer, LockMsg]

  /** The fields of a credential are keyed by a head that says which credential it is. */
  datatype Key = Version | Kind | Authorization | Additional | Error | Of(head: string, item: Item)

  function ItemText(i: Item): string {
    match i
    case Name => "_NAME="
    case Desc => "_DESC="
    case Start => "_START_TIME="
    case End => "_END_TIME="
    case Owner => "_OWNER="
    case Retriever => "_RETRIEVER="
    case KeyRetrievers => "_KEYRETRIEVERS="
    case RetrieverTrusted => "_RETRIEVER_TRUSTED="
    case Renewer => "_RENEWER="
    case LockMsg => "_LOCKMSG="
  }

  function Head(k: Key): string {
    match k
    case Version => "VER"
    case Kind => "RESP"
    case Authorization => "AUTHORIZATION"
    case Additional => "ADDL"
    case Error => "E"
    case Of(h, _) => h
  }

  function Body(k: Key): string {
    match k
    case Version => "SION="
    case Kind => "ONSE="
    case Authorization => "_DATA="
    case Additional => "_CREDS="
    case Error => "RROR="
    case Of(_, i) => ItemText(i)
  }

  function Text(k: Key): string { Head(k) + Body(k) }

  /** The second, fourth and fifth characters from the end of a key. */
  function Ending(k: Key): (char, char, char) {
    match k
    case Version => ('N', 'I', 'S')
    case Kind => ('E', 'N', 'O')
    case Authorization => ('A', 'A', 'D')
    case Additional => ('S', 'E', 'R')
    case Error => ('R', 'R', 'R')
    case Of(_, i) => ItemEnding(i)
  }

  function ItemEnding(i: Item): (char, char, char) {
    match i
    case Name => ('E', 'A', 'N')
    case Desc => ('C', 'E', 'D')
    case Start => ('E', 'I', 'T')
    case End => ('E', 'I', 'T')
    case Owner => ('R', 'N', 'W')
    case Retriever => ('R', 'V', 'E')
    case KeyRetrievers => ('S', 'E', 'V')
    case RetrieverTrusted => ('D', 'T', 'S')
    case Renewer => ('R', 'W', 'E')
    case LockMsg => ('G', 'M', 'K')
  }

  lemma ItemTextEnding(i: Item)
    ensures var t := ItemText(i);
      |t| >= 5 && (FromEnd(t, 2), FromEnd(t, 4), FromEnd(t, 5)) == ItemEnding(i)
  {
  }

  lemma BodyEnding(k: Key)
    ensures var t := Body(k);
      |t| >= 5 && (FromEnd(t, 2), FromEnd(t, 4), FromEnd(t, 5)) == Ending(k)
  {
    if k.Of? { ItemTextEnding(k.item); }
  }

  lemma {:induction false} BodyIsKey(k: Key)
    requires '=' !in Head(k) && OneLine(Head(k))
    ensures IsKey(Text(k))
  {
    var h, b := Head(k), Body(k);
    BodyShape(k);
    assert (h + b)[..|h + b| - 1] == h + b[..|b| - 1];
  }

  lemma BodyShape(k: Key)
    ensures IsKey(Body(k))
  {
    if k.Of? {
      if |ItemText(k.item)| <= 9 { ShortItemIsKey(k.item); } else { LongItemIsKey(k.item); }
    }
  }

  lemma ShortItemIsKey(i: Item)
    requires |ItemText(i)| <= 9
    ensures IsKey(ItemText(i))
  {
  }

  lemma LongItemIsKey(i: Item)
    requires |ItemText(i)| > 9
    ensures IsKey(ItemText(i))
  {
  }

  /** Only keys of the same item can be suffixes of each other, and then by their heads. */
  lemma {:induction false} KeySuffix(q: Key, k: Key)
    ensures IsSuffix(Text(q), Text(k)) <==> Matches(q, k)
  {
    if q == k {
      SelfIsSuffix(Text(k));
    } else if q.Of? && k.Of? && q.item == k.item {
      SuffixCommon(q.head, k.head, ItemText(k.item));
    } else if IsSuffix(Text(q), Text(k)) {
      SameEnding(q, k);
    }
  }

  lemma {:induction false} TextFromEnd(k: Key, i: nat)
    requires 1 <= i <= |Body(k)|
    ensures |Body(k)| <= |Text(k)| && FromEnd(Text(k), i) == FromEnd(Body(k), i)
  {
  }

  lemma {:induction false} SameFromEnd(q: Key, k: Key, i: nat)
    requires IsSuffix(Text(q), Text(k)) && 1 <= i <= |Body(q)| && i <= |Body(k)|
    ensures FromEnd(Body(q), i) == FromEnd(Body(k), i)
  {
    TextFromEnd(q, i);
    TextFromEnd(k, i);
    SuffixChar(Text(q), Text(k), i);
  }

  predicate IsTime(k: Key) { k.Of? && (k.item == Start || k.item == End) }

  lemma EqualItemEndings(i: Item, j: Item)
    requires ItemEnding(i) == ItemEnding(j)
    ensures i == j || (i in {Start, End} && j in {Start, End})
  {
  }

  lemma EqualEndings(q: Key, k: Key)
    requires Ending(q) == Ending(k)
    ensures q == k || (q.Of? && k.Of? && (q.item == k.item || (IsTime(q) && IsTime(k))))
  {
    if q.Of? && k.Of? { EqualItemEndings(q.item, k.item); }
  }

  lemma {:induction false} EndingsAgree(q: Key, k: Key)
    requires IsSuffix(Text(q), Text(k))
    ensures Ending(q) == Ending(k)
  {
    BodyEnding(q);
    BodyEnding(k);
    SameFromEnd(q, k, 2);
    SameFromEnd(q, k, 4);
    SameFromEnd(q, k, 5);
  }

  lemma {:induction false} TimesAgree(q: Key, k: Key)
    requires IsSuffix(Text(q), Text(k)) && IsTime(q) && IsTime(k)
    ensures q.item == k.item
  {
    SameFromEnd(q, k, 7);
  }

  lemma {:induction false} SameEnding(q: Key, k: Key)
    requires IsSuffix(Text(q), Text(k))
    ensures q == k || (q.Of? && k.Of? && q.item == k.item)
  {
    EndingsAgree(q, k);
    EqualEndings(q, k);
    if IsTime(q) && IsTime(k) { TimesAgree(q, k); }
  }

  /** A lookup of q also takes the lines whose key ends in q. */
  predicate Matches(q: Key, k: Key) {
    q == k || (q.Of? && k.Of? && q.item == k.item && IsSuffix(q.head, k.head))
  }

  // ----- the response and its fields -----

  datatype Cred = Cred(name: Option<string>, desc: Option<string>, start: int, end: int, owner: Option<string>,
                       retrievers: Option<string>, keyRetrievers: Option<string>, trusted: Option<string>,
                       renewers: Option<string>, lock: Option<string>)

  datatype Response = Response(version: string, kind: int, error: string, auth: seq<Auth>, creds: seq<Cred>)

  const OK := 0
  const ERROR := 1
  const AUTHORIZATION := 2
  const ULONG_RANGE := 0x1_0000_0000_0000_0000

  datatype Entry = Entry(key: Key, value: string)

  function Fields(es: seq<Entry>): (fs: seq<Field>)
    ensures |fs| == |es|
  {
    if es == [] then [] else [Field(Text(es[0].key), es[0].value)] + Fields(es[1..])
  }

  /** Only the first line of a lock message is sent. */
  function FirstLine(s: string): string {
    match Split(s, '\n')
    case None => s
    case Some((line, _)) => line
  }

  function FirstLineOf(o: Option<string>): Option<string> {
    if o.Some? then Some(FirstLine(o.value)) else None
  }

  /** Times are printed as unsigned long integers. */
  function TimeText(t: int): string { Decimal(t % ULONG_RANGE) }

  /** The value a credential puts under an item; the name only for the first credential. */
  function ItemValue(c: Cred, i: Item, first: bool): Option<string> {
    match i
    case Name => if first then c.name else None
    case Desc => c.desc
    case Start => Some(TimeText(c.start))
    case End => Some(TimeText(c.end))
    case Owner => c.owner
    case Retriever => c.retrievers
    case KeyRetrievers => c.keyRetrievers
    case RetrieverTrusted => c.trusted
    case Renewer => c.renewers
    case LockMsg => FirstLineOf(c.lock)
  }

  function NameOf(c: Cred): string { if c.name.Some? then c.name.value else "" }

  function HeadOf(c: Cred, first: bool): string { if first then "CRED" else "CRED_" + NameOf(c) }

  function CredEntries(c: Cred, first: bool, items: seq<Item>): seq<Entry> {
    if items == [] then []
    else
      var v, rest := ItemValue(c, items[0], first), CredEntries(c, first, items[1..]);
      if v.Some? then [Entry(Of(HeadOf(c, first), items[0]), v.value)] + rest else rest
  }

  function ListEntries(cs: seq<Cred>, first: bool, items: seq<Item>): seq<Entry> {
    if cs == [] then [] else CredEntries(cs[0], first, items) + ListEntries(cs[1..], false, items)
  }

  function Names(cs: seq<Cred>): (names: seq<string>)
    ensures |names| == |cs|
  {
    if cs == [] then [] else [NameOf(cs[0])] + Names(cs[1..])
  }

  function Repeated(k: Key, values: seq<string>): seq<Entry> {
    if values == [] then [] else [Entry(k, values[0])] + Repeated(k, values[1..])
  }

  /** Everything but the credentials' own fields, in front of them and behind them. */
  function Front(r: Response): seq<Entry> {
    [Entry(Version, r.version), Entry(Kind, FormatInt(r.kind))] + Repeated(Authorization, AuthTexts(r.auth))
  }

  function Back(r: Response): seq<Entry> {
    (if r.kind == OK && |r.creds| > 1 then [Entry(Additional, JoinNames(Names(r.creds[1..])))] else []) +
    (if r.kind == ERROR then Repeated(Error, ErrorLines(r.error)) else [])
  }

  function EntriesBy(r: Response, items: seq<Item>): seq<Entry> {
    Front(r) + (if r.kind == OK then ListEntries(r.creds, true, items) else []) + Back(r)
  }

  function Entries(r: Response): seq<Entry> { EntriesBy(r, ITEMS) }

  /** The serialized response; an unknown kind is refused. */
  function Serialize(r: Response): Option<string> {
    if r.kind in {OK, ERROR, AUTHORIZATION} then Some(Render(Fields(Entries(r)))) else None
  }

  // ----- reading a response -----

  function Get(data: string, q: Key): Conversion { Convert(data, Text(q), false) }

  function Getter(data: string): Key -> Conversion { q => Get(data, q) }

  function TextOf(c: Conversion, keepEmpty: bool): Option<string> {
    if c.Value? && (keepEmpty || c.text != "") then Some(c.text) else None
  }

  function TimeOf(c: Conversion): Option<int> {
    if c.Value? && c.text != "" then
      match StringToInt(c.text)
      case Number(v) => Some(v)
      case _ => None
    else Some(0)
  }

  predicate Repeats(get: Item -> Conversion, first: bool) {
    get(Start).Multiple? || get(if first then Name else End).Multiple? || get(Desc).Multiple? ||
    get(Owner).Multiple? || get(Retriever).Multiple? || get(KeyRetrievers).Multiple? ||
    get(RetrieverTrusted).Multiple? || get(Renewer).Multiple? || get(LockMsg).Multiple?
  }

  function Collect(get: Item -> Conversion, name: Option<string>, start: int, end: int, first: bool): Cred {
    Cred(name, TextOf(get(Desc), !first), start, end, TextOf(get(Owner), true), TextOf(get(Retriever), true),
         TextOf(get(KeyRetrievers), true), TextOf(get(RetrieverTrusted), true), TextOf(get(Renewer), true),
         TextOf(get(LockMsg), true))
  }

  /** Read one credential. The first one carries its own name, drops an empty name or
      description, and ignores a repeated end time. */
  function ReadCred(get: Item -> Conversion, name: string, first: bool): Option<Cred> {
    var start, end := TimeOf(get(Start)), TimeOf(get(End));
    if Repeats(get, first) || start.None? || end.None? then None
    else Some(Collect(get, if first then TextOf(get(Name), false) else Some(name), start.value, end.value, first))
  }

  function ItemsOf(get: Key -> Conversion, head: string): Item -> Conversion {
    i => get(Of(head, i))
  }

  function ReadNamed(get: Key -> Conversion, names: seq<string>): Option<seq<Cred>> {
    if names == [] then Some([])
    else
      var c := ReadCred(ItemsOf(get, "CRED_" + names[0]), names[0], false);
      var rest := ReadNamed(get, names[1..]);
      if c.None? || rest.None? then None else Some([c.value] + rest.value)
  }

  /** The first credential and those named by the list of additional ones. */
  function ReadMore(c: Option<Cred>, more: Conversion, get: Key -> Conversion): Option<seq<Cred>> {
    if c.None? || more.Multiple? then None
    else if more.Missing? then Some([c.value])
    else
      var rest := ReadNamed(get, ParseNames(more.text));
      if rest.None? then None else Some([c.value] + rest.value)
  }

  function ReadCreds(get: Key -> Conversion): Option<seq<Cred>> {
    var start := get(Of("CRED", Start));
    if start.Multiple? then None
    else if start.Missing? || start.text == "" then Some([])
    else ReadMore(ReadCred(ItemsOf(get, "CRED"), "", true), get(Additional), get)
  }

  function ReadAuth(data: string): Option<seq<Auth>> {
    var c := Convert(data, Text(Authorization), true);
    if c.Value? && c.text != "" then ParseAuth(c.text) else Some([])
  }

  function ReadError(data: string): string {
    var c := Convert(data, Text(Error), true);
    if c.Value? then c.text else ""
  }

  function Conclusion(version: Conversion, kind: Conversion, error: string,
                      creds: Option<seq<Cred>>, auth: Option<seq<Auth>>): Option<Response>
  {
    if !version.Value? || !kind.Value? || !StringToInt(kind.text).Number? then None
    else if StringToInt(kind.text).value == ERROR then Some(Response(version.text, ERROR, error, [], []))
    else if creds.None? || auth.None? then None
    else Some(Response(version.text, StringToInt(kind.text).value, "", auth.value, creds.value))
  }

  function Deserialize(data: string): Option<Response> {
    Conclusion(Get(data, Version), Get(data, Kind), ReadError(data), ReadCreds(Getter(data)), ReadAuth(data))
  }

  // ----- lookups see the matching entries -----

  function Hits(es: seq<Entry>, q: Key): seq<string> {
    if es == [] then []
    else Cons(if Matches(q, es[0].key) then Some(es[0].value) else None, Hits(es[1..], q))
  }

  predicate Plain(s: string) { '=' !in s && OneLine(s) }

  /** The entries can be looked up by q: keys are well formed and no value contains q's text. */
  ghost predicate Readable(es: seq<Entry>, q: Key) {
    Plain(Head(q)) &&
    forall i :: 0 <= i < |es| ==> Plain(Head(es[i].key)) && OneLine(es[i].value) && !Contains(es[i].value, Text(q))
  }

  lemma {:induction false} LineHit(q: Key, k: Key, v: string)
    requires IsKey(Text(q)) && IsKey(Text(k)) && !Contains(v, Text(q))
    ensures After(Text(k) + v, Text(q)) == if Matches(q, k) then Some(v) else None
  {
    KeySuffix(q, k);
    if Matches(q, k) { SuffixLine(Text(q), Text(k), v); } else { OtherKey(Text(q), Text(k), v); }
  }

  lemma {:induction false} SuffixLine(q: string, k: string, v: string)
    requires IsKey(q) && IsKey(k) && IsSuffix(q, k) && !Contains(v, q)
    ensures After(k + v, q) == Some(v)
  {
    var d := |k| - |q|;
    OccursInHead(k, v, q, d);
    forall j: nat | j < d ensures !OccursAt(k + v, q, j) {
      if OccursAt(k + v, q, j) { KeyInLine(q, k, v, j); }
    }
    FindUnique(k + v, q, 0, d);
    assert (k + v)[|k|..] == v;
  }

  lemma {:induction false} EntryHits(es: seq<Entry>, q: Key)
    requires Readable(es, q)
    ensures FieldHits(Fields(es), Text(q)) == Hits(es, q) && AllTidy(Fields(es))
  {
    BodyIsKey(q);
    if es != [] {
      BodyIsKey(es[0].key);
      LineHit(q, es[0].key, es[0].value);
      EntryHits(es[1..], q);
    }
  }

  /** Looking up a key in a rendered response finds the values of the matching entries. */
  lemma {:induction false} LookupHits(es: seq<Entry>, q: Key, multiple: bool)
    requires Readable(es, q)
    ensures Convert(Render(Fields(es)), Text(q), multiple) == Conclude(Hits(es, q), multiple)
  {
    BodyIsKey(q);
    EntryHits(es, q);
    RenderValues(Fields(es), Text(q));
  }

  function Listed(o: Option<string>): seq<string> { Cons(o, []) }

  lemma {:induction false} HitsAppend(a: seq<Entry>, b: seq<Entry>, q: Key)
    ensures Hits(a + b, q) == Hits(a, q) + Hits(b, q)
  {
    if a == [] {
      assert a + b == b;
    } else {
      assert (a + b)[1..] == a[1..] + b;
      HitsAppend(a[1..], b, q);
    }
  }

  lemma {:induction false} RepeatedHits(k: Key, values: seq<string>, q: Key)
    ensures Hits(Repeated(k, values), q) == if Matches(q, k) then values else []
  {
    if values != [] { RepeatedHits(k, values[1..], q); }
  }

  predicate Distinct(items: seq<Item>) {
    forall i, j :: 0 <= i < j < |items| ==> items[i] != items[j]
  }

  lemma {:induction false} CredHits(c: Cred, first: bool, items: seq<Item>, q: Key)
    requires Distinct(items)
    ensures Hits(CredEntries(c, first, items), q) ==
      if q.Of? && q.item in items && IsSuffix(q.head, HeadOf(c, first)) then Listed(ItemValue(c, q.item, first)) else []
  {
    SelfIsSuffix(HeadOf(c, first));
    if items != [] {
      var v, rest := ItemValue(c, items[0], first), CredEntries(c, first, items[1..]);
      CredHits(c, first, items[1..], q);
      if v.Some? {
        var e := Entry(Of(HeadOf(c, first), items[0]), v.value);
        assert ([e] + rest)[1..] == rest;
      }
    }
  }

  /** What a lookup of item i under head h sees in a list of credentials. */
  function ListHits(cs: seq<Cred>, first: bool, h: string, i: Item): seq<string> {
    if cs == [] then []
    else Cons(if IsSuffix(h, HeadOf(cs[0], first)) then ItemValue(cs[0], i, first) else None,
              ListHits(cs[1..], false, h, i))
  }

  lemma {:induction false} ListEntriesHits(cs: seq<Cred>, first: bool, items: seq<Item>, q: Key)
    requires Distinct(items) && (q.Of? ==> q.item in items)
    ensures Hits(ListEntries(cs, first, items), q) == if q.Of? then ListHits(cs, first, q.head, q.item) else []
  {
    if cs != [] {
      HitsAppend(CredEntries(cs[0], first, items), ListEntries(cs[1..], false, items), q);
      CredHits(cs[0], first, items, q);
      ListEntriesHits(cs[1..], false, items, q);
    }
  }

  // ----- heads -----

  function HeadAt(cs: seq<Cred>, first: bool, j: nat): string
    requires j < |cs|
  {
    HeadOf(cs[j], first && j == 0)
  }

  lemma {:induction false} NoHit(cs: seq<Cred>, first: bool, h: string, i: Item)
    requires forall k :: 0 <= k < |cs| ==> !IsSuffix(h, HeadAt(cs, first, k))
    ensures ListHits(cs, first, h, i) == []
  {
    if cs != [] {
      assert !IsSuffix(h, HeadAt(cs, first, 0));
      forall k | 0 <= k < |cs[1..]| ensures !IsSuffix(h, HeadAt(cs[1..], false, k)) {
        assert HeadAt(cs[1..], false, k) == HeadAt(cs, first, k + 1);
      }
      NoHit(cs[1..], false, h, i);
    }
  }

  /** A head that fits one credential only finds exactly that credential's item. */
  lemma {:induction false} OneHit(cs: seq<Cred>, first: bool, h: string, j: nat, i: Item)
    requires j < |cs| && IsSuffix(h, HeadAt(cs, first, j))
    requires forall k :: 0 <= k < |cs| && k != j ==> !IsSuffix(h, HeadAt(cs, first, k))
    ensures ListHits(cs, first, h, i) == Listed(ItemValue(cs[j], i, first && j == 0))
  {
    forall k | 0 <= k < |cs[1..]| && k + 1 != j ensures !IsSuffix(h, HeadAt(cs[1..], false, k)) {
      assert HeadAt(cs[1..], false, k) == HeadAt(cs, first, k + 1);
    }
    if j == 0 {
      assert IsSuffix(h, HeadOf(cs[0], first));
      NoHit(cs[1..], false, h, i);
    } else {
      assert !IsSuffix(h, HeadAt(cs, first, 0));
      assert HeadAt(cs[1..], false, j - 1) == HeadAt(cs, first, j);
      OneHit(cs[1..], false, h, j - 1, i);
    }
  }

  lemma {:induction false} SomeHit(cs: seq<Cred>, first: bool, h: string, j: nat)
    requires j < |cs| && IsSuffix(h, HeadAt(cs, first, j))
    ensures |ListHits(cs, first, h, Start)| >= 1
  {
    if j > 0 {
      assert HeadAt(cs[1..], false, j - 1) == HeadAt(cs, first, j);
      SomeHit(cs[1..], false, h, j - 1);
    }
  }

  lemma {:induction false} TwoHits(cs: seq<Cred>, first: bool, h: string, j: nat, k: nat)
    requires j < k < |cs| && IsSuffix(h, HeadAt(cs, first, j)) && IsSuffix(h, HeadAt(cs, first, k))
    ensures |ListHits(cs, first, h, Start)| >= 2
  {
    assert HeadAt(cs[1..], false, k - 1) == HeadAt(cs, first, k);
    if j == 0 {
      SomeHit(cs[1..], false, h, k - 1);
    } else {
      assert HeadAt(cs[1..], false, j - 1) == HeadAt(cs, first, j);
      TwoHits(cs[1..], false, h, j - 1, k - 1);
    }
  }

  /** No credential's head is a suffix of another's. */
  ghost predicate Apart(cs: seq<Cred>) {
    forall j, k :: 0 <= j < |cs| && 0 <= k < |cs| && j != k ==> !IsSuffix(HeadAt(cs, true, j), HeadAt(cs, true, k))
  }

  // ----- what each lookup finds in a serialized response -----

  lemma {:induction false} FrontHits(r: Response, q: Key)
    ensures Hits(Front(r), q) ==
      match q
      case Version => [r.version]
      case Kind => [FormatInt(r.kind)]
      case Authorization => AuthTexts(r.auth)
      case _ => []
  {
    var v, k := Entry(Version, r.version), Entry(Kind, FormatInt(r.kind));
    var auth := Repeated(Authorization, AuthTexts(r.auth));
    RepeatedHits(Authorization, AuthTexts(r.auth), q);
    assert Front(r) == [v] + ([k] + auth);
    assert ([k] + auth)[1..] == auth;
    assert ([v] + ([k] + auth))[1..] == [k] + auth;
  }

  lemma {:induction false} BackHits(r: Response, q: Key)
    ensures Hits(Back(r), q) ==
      if q == Additional && r.kind == OK && |r.creds| > 1 then [JoinNames(Names(r.creds[1..]))]
      else if q == Error && r.kind == ERROR then ErrorLines(r.error)
      else []
  {
    RepeatedHits(Error, ErrorLines(r.error), q);
    if r.kind == OK && |r.creds| > 1 {
      assert Back(r) == [Entry(Additional, JoinNames(Names(r.creds[1..])))];
    } else if r.kind == ERROR {
      assert Back(r) == Repeated(Error, ErrorLines(r.error));
    }
  }

  lemma ItemsDistinct()
    ensures Distinct(ITEMS) && forall i: Item :: i in ITEMS
  {
    forall i: Item ensures i in ITEMS {
      match i
      case Name => assert ITEMS[0] == i;
      case Desc => assert ITEMS[1] == i;
      case Start => assert ITEMS[2] == i;
      case End => assert ITEMS[3] == i;
      case Owner => assert ITEMS[4] == i;
      case Retriever => assert ITEMS[5] == i;
      case KeyRetrievers => assert ITEMS[6] == i;
      case RetrieverTrusted => assert ITEMS[7] == i;
      case Renewer => assert ITEMS[8] == i;
      case LockMsg => assert ITEMS[9] == i;
    }
  }

  function MiddleHits(r: Response, q: Key): seq<string> {
    if r.kind == OK && q.Of? then ListHits(r.creds, true, q.head, q.item) else []
  }

  lemma {:induction false} ResponseHits(r: Response, items: seq<Item>, q: Key)
    requires Distinct(items) && (q.Of? ==> q.item in items)
    ensures Hits(EntriesBy(r, items), q) == Hits(Front(r), q) + MiddleHits(r, q) + Hits(Back(r), q)
  {
    var middle := if r.kind == OK then ListEntries(r.creds, true, items) else [];
    ListEntriesHits(r.creds, true, items, q);
    HitsAppend(Front(r), middle, q);
    HitsAppend(Front(r) + middle, Back(r), q);
  }

  /** Every lookup in a readable response. */
  lemma {:induction false} Lookups(r: Response, q: Key, multiple: bool)
    requires Readable(Entries(r), q)
    ensures Convert(Render(Fields(Entries(r))), Text(q), multiple) ==
      Conclude(Hits(Front(r), q) + MiddleHits(r, q) + Hits(Back(r), q), multiple)
  {
    ItemsDistinct();
    ResponseHits(r, ITEMS, q);
    LookupHits(Entries(r), q, multiple);
  }

  // ----- one credential -----

  function Outcome(o: Option<string>): Conversion { if o.Some? then Value(o.value) else Missing }

  lemma ListedOutcome(o: Option<string>)
    ensures Conclude(Listed(o), false) == Outcome(o)
  {
  }

  function NonEmpty(o: Option<string>): Option<string> { if o == Some("") then None else o }

  /** What the reader makes of a credential. */
  function NormalCred(c: Cred, first: bool): Cred {
    c.(name := if first then NonEmpty(c.name) else c.name,
       desc := if first then NonEmpty(c.desc) else c.desc,
       lock := FirstLineOf(c.lock))
  }

  function NormalList(cs: seq<Cred>): seq<Cred> {
    if cs == [] then [] else [NormalCred(cs[0], false)] + NormalList(cs[1..])
  }

  predicate Timely(c: Cred) { 0 <= c.start < INT_LIMIT && 0 <= c.end < INT_LIMIT }

  lemma {:induction false} TimeBack(t: int)
    requires 0 <= t < INT_LIMIT
    ensures TimeText(t) != "" && TimeOf(Value(TimeText(t))) == Some(t)
  {
    assert t % ULONG_RANGE == t;
    TimeRoundTrip(t);
  }

  /** Every time a long can hold: one before 1970 or at the very end of the range is refused, one
      beyond an int comes back truncated, any other comes back. */
  lemma {:induction false} TimeExact(t: int)
    requires -LONG_LIMIT <= t < LONG_LIMIT
    ensures TimeOf(Value(TimeText(t))) == if 0 <= t < LONG_LIMIT - 1 then Some(ToInt(t)) else None
    ensures TimeOf(Value(TimeText(t))) == Some(t) <==> 0 <= t < INT_LIMIT
  {
    var n := t % ULONG_RANGE;
    assert n == if t < 0 then t + ULONG_RANGE else t;
    if 0 <= t < LONG_LIMIT - 1 {
      StrtolFormat(t);
      ToIntExact(t);
    } else {
      HugeNumber(n);
    }
  }

  /** A lock message is cut at its first line break, an error text loses only its last one. */
  lemma {:induction false} LinesKept(line: string, rest: string)
    requires OneLine(line)
    ensures FirstLine(line) == line && FirstLine(line + "\n" + rest) == line
    ensures Chomp(rest + "\n") == rest && Chomp(line) == line
  {
    SplitNone(line, '\n');
    SplitAt(line, '\n', rest);
    assert (rest + "\n")[..|rest|] == rest;
  }

  /** Every item of the credential is found under its head. */
  ghost predicate Found(get: Item -> Conversion, c: Cred, first: bool) {
    forall i: Item :: get(i) == Outcome(ItemValue(c, i, first))
  }

  lemma NoRepeats(get: Item -> Conversion, c: Cred, first: bool)
    requires Found(get, c, first)
    ensures !Repeats(get, first)
  {
  }

  lemma CollectBack(get: Item -> Conversion, c: Cred, name: Option<string>, first: bool)
    requires Found(get, c, first)
    ensures Collect(get, name, c.start, c.end, first) == NormalCred(c, first).(name := name)
  {
  }

  lemma {:induction false} ReadBack(get: Item -> Conversion, c: Cred, first: bool)
    requires Found(get, c, first) && Timely(c) && (first || c.name.Some?)
    ensures ReadCred(get, NameOf(c), first) == Some(NormalCred(c, first))
  {
    TimeBack(c.start);
    TimeBack(c.end);
    assert get(Start) == Value(TimeText(c.start)) && get(End) == Value(TimeText(c.end));
    NoRepeats(get, c, first);
    var name := if first then TextOf(get(Name), false) else Some(NameOf(c));
    assert first ==> get(Name) == Outcome(c.name);
    assert name == NormalCred(c, first).name;
    CollectBack(get, c, name, first);
  }

  ghost predicate AllFound(get: Key -> Conversion, cs: seq<Cred>) {
    forall j :: 0 <= j < |cs| ==> Timely(cs[j]) && cs[j].name.Some? &&
                                  Found(ItemsOf(get, HeadOf(cs[j], false)), cs[j], false)
  }

  lemma {:induction false} ReadNamedBack(get: Key -> Conversion, cs: seq<Cred>)
    requires AllFound(get, cs)
    ensures ReadNamed(get, Names(cs)) == Some(NormalList(cs))
  {
    if cs != [] {
      ReadBack(ItemsOf(get, HeadOf(cs[0], false)), cs[0], false);
      ReadNamedBack(get, cs[1..]);
      assert Names(cs)[1..] == Names(cs[1..]);
    }
  }

  lemma {:induction false} ReadNamedFails(get: Key -> Conversion, names: seq<string>, j: nat)
    requires j < |names| && get(Of("CRED_" + names[j], Start)).Multiple?
    ensures ReadNamed(get, names) == None
  {
    if j > 0 {
      ReadNamedFails(get, names[1..], j - 1);
    } else {
      assert ItemsOf(get, "CRED_" + names[0])(Start).Multiple?;
    }
  }

  // ----- whole responses -----

  /** The credential list the reader returns. */
  function NormalCreds(cs: seq<Cred>): seq<Cred> {
    if cs == [] then [] else [NormalCred(cs[0], true)] + NormalList(cs[1..])
  }

  /** What the reader makes of a response: an error carries its text only. */
  function Normal(r: Response): Response {
    if r.kind == ERROR then Response(r.version, ERROR, Chomp(r.error), [], [])
    else Response(r.version, r.kind, "", r.auth, if r.kind == OK then NormalCreds(r.creds) else [])
  }

  predicate Additionals(cs: seq<Cred>) {
    forall j :: 0 < j < |cs| ==> cs[j].name.Some? && NameOf(cs[j]) != "" && ',' !in NameOf(cs[j])
  }

  predicate AllTimely(cs: seq<Cred>) { forall j :: 0 <= j < |cs| ==> Timely(cs[j]) }

  predicate AllOwned(cs: seq<Cred>) { forall j :: 0 <= j < |cs| ==> cs[j].owner.Some? }

  /** The keys the reader looks up. */
  ghost predicate Queried(r: Response, q: Key) {
    q.Of? ==> q.head == "CRED" || exists j :: 0 <= j < |r.creds| && q.head == HeadAt(r.creds, true, j)
  }

  /** A response whose values are single lines that contain none of the keys looked up. */
  ghost predicate Sendable(r: Response) {
    r.kind in {OK, ERROR, AUTHORIZATION} && AllKnown(r.auth) &&
    Additionals(r.creds) && AllTimely(r.creds) && AllOwned(r.creds) &&
    forall q :: Queried(r, q) ==> Readable(Entries(r), q)
  }

  lemma {:induction false} GetItem(r: Response, h: string, i: Item)
    requires Sendable(r) && Queried(r, Of(h, i))
    ensures Get(Render(Fields(Entries(r))), Of(h, i)) ==
      Conclude(if r.kind == OK then ListHits(r.creds, true, h, i) else [], false)
  {
    var q := Of(h, i);
    FrontHits(r, q);
    BackHits(r, q);
    Lookups(r, q, false);
    var m := MiddleHits(r, q);
    assert [] + m + [] == m;
  }

  lemma {:induction false} GetFixed(r: Response)
    requires Sendable(r)
    ensures var data := Render(Fields(Entries(r)));
      Get(data, Version) == Value(r.version) && Get(data, Kind) == Value(FormatInt(r.kind))
  {
    FrontHits(r, Version);
    BackHits(r, Version);
    assert Queried(r, Version) && Queried(r, Kind);
    Lookups(r, Version, false);
    FrontHits(r, Kind);
    BackHits(r, Kind);
    Lookups(r, Kind, false);
  }

  lemma {:induction false} GetAdditional(r: Response)
    requires Sendable(r)
    ensures Get(Render(Fields(Entries(r))), Additional) ==
      if r.kind == OK && |r.creds| > 1 then Value(JoinNames(Names(r.creds[1..]))) else Missing
  {
    FrontHits(r, Additional);
    BackHits(r, Additional);
    assert Queried(r, Additional);
    Lookups(r, Additional, false);
  }

  lemma {:induction false} GetError(r: Response)
    requires Sendable(r) && r.kind == ERROR
    ensures ReadError(Render(Fields(Entries(r)))) == Chomp(r.error)
  {
    FrontHits(r, Error);
    BackHits(r, Error);
    assert Queried(r, Error);
    Lookups(r, Error, true);
    var lines := ErrorLines(r.error);
    assert [] + [] + lines == lines;
    NoLines(r.error);
    ErrorRoundTrip(r.error);
  }

  lemma JoinNonEmpty(x: string, xs: seq<string>)
    requires x != ""
    ensures Join([x] + xs) != ""
  {
  }

  lemma {:induction false} GetAuth(r: Response)
    requires Sendable(r)
    ensures ReadAuth(Render(Fields(Entries(r)))) == Some(r.auth)
  {
    FrontHits(r, Authorization);
    BackHits(r, Authorization);
    assert Queried(r, Authorization);
    Lookups(r, Authorization, true);
    var texts := AuthTexts(r.auth);
    assert texts + [] + [] == texts;
    if r.auth != [] {
      JoinNonEmpty(AuthText(r.auth[0]), AuthTexts(r.auth[1..]));
      AuthRoundTrip(r.auth);
    }
  }

  lemma {:induction false} FoundAt(r: Response, j: nat)
    requires Sendable(r) && r.kind == OK && j < |r.creds| && Apart(r.creds)
    ensures Found(ItemsOf(Getter(Render(Fields(Entries(r)))), HeadAt(r.creds, true, j)), r.creds[j], j == 0)
  {
    var h := HeadAt(r.creds, true, j);
    SelfIsSuffix(h);
    forall i: Item
      ensures ItemsOf(Getter(Render(Fields(Entries(r)))), h)(i) == Outcome(ItemValue(r.creds[j], i, j == 0))
    {
      assert Queried(r, Of(h, i));
      GetItem(r, h, i);
      OneHit(r.creds, true, h, j, i);
      ListedOutcome(ItemValue(r.creds[j], i, j == 0));
    }
  }

  lemma {:induction false} AdditionalNames(cs: seq<Cred>)
    requires |cs| > 1 && Additionals(cs)
    ensures ParseNames(JoinNames(Names(cs[1..]))) == Names(cs[1..])
  {
    forall j | 0 <= j < |cs| - 1 ensures Names(cs[1..])[j] == NameOf(cs[j + 1]) {
      NamesAt(cs[1..], j);
    }
    NamesRoundTrip(Names(cs[1..]));
  }

  lemma {:induction false} NamesAt(cs: seq<Cred>, j: nat)
    requires j < |cs|
    ensures Names(cs)[j] == NameOf(cs[j])
  {
    if j > 0 { NamesAt(cs[1..], j - 1); }
  }

  /** The reader's outcome from what its lookups find. */
  lemma {:induction false} ReadCredsBack(get: Key -> Conversion, c: Cred, rest: seq<Cred>)
    requires Timely(c) && Found(ItemsOf(get, "CRED"), c, true) && AllFound(get, rest)
    requires get(Additional) == if rest == [] then Missing else Value(JoinNames(Names(rest)))
    requires rest != [] ==> ParseNames(JoinNames(Names(rest))) == Names(rest)
    ensures ReadCreds(get) == Some([NormalCred(c, true)] + NormalList(rest))
  {
    assert ItemsOf(get, "CRED")(Start) == get(Of("CRED", Start));
    TimeBack(c.start);
    NameIgnored(ItemsOf(get, "CRED"), NameOf(c));
    ReadBack(ItemsOf(get, "CRED"), c, true);
    ReadMoreBack(get, NormalCred(c, true), rest);
  }

  lemma {:induction false} ReadMoreBack(get: Key -> Conversion, c: Cred, rest: seq<Cred>)
    requires AllFound(get, rest)
    requires rest != [] ==> ParseNames(JoinNames(Names(rest))) == Names(rest)
    ensures ReadMore(Some(c), if rest == [] then Missing else Value(JoinNames(Names(rest))), get)
      == Some([c] + NormalList(rest))
  {
    ReadNamedBack(get, rest);
    assert rest == [] ==> [c] + NormalList(rest) == [c];
  }

  lemma {:induction false} RestFound(r: Response)
    requires Sendable(r) && r.kind == OK && Apart(r.creds) && r.creds != []
    ensures AllFound(Getter(Render(Fields(Entries(r)))), r.creds[1..])
  {
    var get, rest := Getter(Render(Fields(Entries(r)))), r.creds[1..];
    forall j | 0 <= j < |rest| ensures Found(ItemsOf(get, HeadOf(rest[j], false)), rest[j], false) {
      FoundAt(r, j + 1);
    }
  }

  lemma {:induction false} CredsBack(r: Response)
    requires Sendable(r) && r.kind == OK && Apart(r.creds)
    ensures ReadCreds(Getter(Render(Fields(Entries(r))))) == Some(NormalCreds(r.creds))
  {
    if r.creds == [] {
      GetItem(r, "CRED", Start);
    } else {
      FoundAt(r, 0);
      RestFound(r);
      GetAdditional(r);
      if |r.creds| > 1 { AdditionalNames(r.creds); }
      ReadCredsBack(Getter(Render(Fields(Entries(r)))), r.creds[0], r.creds[1..]);
    }
  }

  /** The first credential is named by its own field. */
  lemma NameIgnored(get: Item -> Conversion, name: string)
    ensures ReadCred(get, name, true) == ReadCred(get, "", true)
  {
  }

  lemma {:induction false} Ambiguous(r: Response, j: nat, k: nat)
    requires Sendable(r) && r.kind == OK && j < |r.creds| && k < |r.creds| && j != k
    requires IsSuffix(HeadAt(r.creds, true, j), HeadAt(r.creds, true, k))
    ensures Get(Render(Fields(Entries(r))), Of(HeadAt(r.creds, true, j), Start)) == Multiple
  {
    var h := HeadAt(r.creds, true, j);
    SelfIsSuffix(h);
    TwoHits(r.creds, true, h, if j < k then j else k, if j < k then k else j);
    assert Queried(r, Of(h, Start));
    GetItem(r, h, Start);
  }

  lemma {:induction false} ReadCredsLost(get: Key -> Conversion, names: seq<string>, j: nat)
    requires j < |names| && get(Of("CRED_" + names[j], Start)).Multiple?
    requires var c := get(Of("CRED", Start)); c.Multiple? || (c.Value? && c.text != "")
    requires get(Additional).Value? && ParseNames(get(Additional).text) == names
    ensures ReadCreds(get) == None
  {
    ReadNamedFails(get, names, j);
  }

  lemma {:induction false} NamedLost(r: Response, j: nat)
    requires Sendable(r) && r.kind == OK && 0 < j < |r.creds|
    requires Getter(Render(Fields(Entries(r))))(Of(HeadAt(r.creds, true, j), Start)) == Multiple
    ensures ReadCreds(Getter(Render(Fields(Entries(r))))) == None
  {
    FirstStart(r);
    AdditionalFound(r);
    OneLost(Getter(Render(Fields(Entries(r)))), r.creds, j);
  }

  lemma {:induction false} OneLost(get: Key -> Conversion, cs: seq<Cred>, j: nat)
    requires 0 < j < |cs| && Additionals(cs) && get(Of(HeadAt(cs, true, j), Start)) == Multiple
    requires var c := get(Of("CRED", Start)); c.Multiple? || (c.Value? && c.text != "")
    requires get(Additional) == Value(JoinNames(Names(cs[1..])))
    ensures ReadCreds(get) == None
  {
    AdditionalNames(cs);
    NamesAt(cs[1..], j - 1);
    ReadCredsLost(get, Names(cs[1..]), j - 1);
  }

  lemma {:induction false} AdditionalFound(r: Response)
    requires Sendable(r) && r.kind == OK && |r.creds| > 1
    ensures Getter(Render(Fields(Entries(r))))(Additional) == Value(JoinNames(Names(r.creds[1..])))
  {
    GetAdditional(r);
  }

  lemma {:induction false} FirstStart(r: Response)
    requires Sendable(r) && r.kind == OK && r.creds != []
    ensures var c := Getter(Render(Fields(Entries(r))))(Of("CRED", Start));
      c.Multiple? || (c.Value? && c.text != "")
  {
    GetItem(r, "CRED", Start);
    StartFound(r.creds);
  }

  lemma {:induction false} CredsLost(r: Response)
    requires Sendable(r) && r.kind == OK && !Apart(r.creds)
    ensures ReadCreds(Getter(Render(Fields(Entries(r))))) == None
  {
    var cs := r.creds;
    var j: nat, k: nat :| j < |cs| && k < |cs| && j != k && IsSuffix(HeadAt(cs, true, j), HeadAt(cs, true, k));
    Ambiguous(r, j, k);
    if j > 0 { NamedLost(r, j); }
  }

  /** A response with credentials is never read as one without. */
  lemma {:induction false} StartFound(cs: seq<Cred>)
    requires cs != [] && AllTimely(cs)
    ensures var c := Conclude(ListHits(cs, true, "CRED", Start), false);
      c.Multiple? || (c.Value? && c.text != "")
  {
    SelfIsSuffix("CRED");
    TimeBack(cs[0].start);
  }

  lemma Concluded(r: Response, error: string, creds: Option<seq<Cred>>, auth: Option<seq<Auth>>)
    requires IsInt(r.kind)
    ensures Conclusion(Value(r.version), Value(FormatInt(r.kind)), error, creds, auth) ==
      if r.kind == ERROR then Some(Response(r.version, ERROR, error, [], []))
      else if creds.None? || auth.None? then None
      else Some(Response(r.version, r.kind, "", auth.value, creds.value))
  {
    IntRoundTrip(r.kind);
  }

  /** A response is restored exactly when no credential's head is a suffix of another's;
      otherwise the reader rejects it. */
  lemma {:induction false} ResponseRoundTrip(r: Response)
    requires Sendable(r)
    ensures Serialize(r).Some?
    ensures Deserialize(Serialize(r).value) == if r.kind == OK && !Apart(r.creds) then None else Some(Normal(r))
  {
    var data := Render(Fields(Entries(r)));
    GetFixed(r);
    Concluded(r, ReadError(data), ReadCreds(Getter(data)), ReadAuth(data));
    if r.kind == ERROR {
      GetError(r);
    } else {
      GetAuth(r);
      if r.kind != OK {
        GetItem(r, "CRED", Start);
      } else if Apart(r.creds) {
        CredsBack(r);
      } else {
        CredsLost(r);
      }
    }
  }

  // ----- which names keep the heads apart -----

  lemma {:induction false} NamedHeads(a: string, b: string)
    ensures IsSuffix("CRED_" + a, "CRED_" + b) <==> a == b || IsSuffix("CRED_" + a, b)
  {
    var x, y := "CRED_" + a, "CRED_" + b;
    SuffixSlice(x, y);
    SuffixSlice(x, b);
    if |a| <= |b| {
      var d := |b| - |a|;
      if d >= 5 {
        assert y[d..] == b[d - 5..];
      } else {
        assert y[d..][0] == "CRED_"[d];
        if d == 0 { assert y[5..] == b && x[5..] == a; }
      }
    }
  }

  lemma {:induction false} FirstHead(b: string)
    ensures IsSuffix("CRED", "CRED_" + b) <==> IsSuffix("CRED", b)
    ensures !IsSuffix("CRED_" + b, "CRED")
  {
    var y := "CRED_" + b;
    SuffixSlice("CRED", y);
    SuffixSlice("CRED", b);
    var d := |b| + 1;
    if d >= 5 {
      assert y[d..] == b[d - 5..];
    } else {
      assert y[d..][0] == "CRED_"[d];
    }
  }

  /** No name ends in CRED, and none is another name or ends in CRED_ followed by another. */
  ghost predicate NamesApart(names: seq<string>) {
    (forall j :: 0 <= j < |names| ==> !IsSuffix("CRED", names[j])) &&
    forall j, k :: 0 <= j < |names| && 0 <= k < |names| && j != k ==>
      names[j] != names[k] && !IsSuffix("CRED_" + names[j], names[k])
  }

  lemma {:induction false} HeadsByName(cs: seq<Cred>, j: nat, k: nat)
    requires j < |cs| && k < |cs| && j != k
    ensures IsSuffix(HeadAt(cs, true, j), HeadAt(cs, true, k)) <==>
      k > 0 && (if j == 0 then IsSuffix("CRED", NameOf(cs[k]))
                else NameOf(cs[j]) == NameOf(cs[k]) || IsSuffix("CRED_" + NameOf(cs[j]), NameOf(cs[k])))
  {
    if j == 0 { FirstHead(NameOf(cs[k])); }
    else if k == 0 { FirstHead(NameOf(cs[j])); }
    else { NamedHeads(NameOf(cs[j]), NameOf(cs[k])); }
  }

  /** The condition of the round trip in terms of the additional credentials' names. */
  lemma {:induction false} ApartByName(cs: seq<Cred>)
    requires cs != []
    ensures Apart(cs) <==> NamesApart(Names(cs[1..]))
  {
    var names := Names(cs[1..]);
    forall j | 0 <= j < |names| ensures names[j] == NameOf(cs[j + 1]) { NamesAt(cs[1..], j); }
    if Apart(cs) {
      forall j | 0 <= j < |names| ensures !IsSuffix("CRED", names[j]) {
        HeadsByName(cs, 0, j + 1);
        assert !IsSuffix(HeadAt(cs, true, 0), HeadAt(cs, true, j + 1));
      }
      forall j, k | 0 <= j < |names| && 0 <= k < |names| && j != k
        ensures names[j] != names[k] && !IsSuffix("CRED_" + names[j], names[k])
      {
        HeadsByName(cs, j + 1, k + 1);
        assert !IsSuffix(HeadAt(cs, true, j + 1), HeadAt(cs, true, k + 1));
      }
    }
    if NamesApart(names) {
      forall j, k | 0 <= j < |cs| && 0 <= k < |cs| && j != k
        ensures !IsSuffix(HeadAt(cs, true, j), HeadAt(cs, true, k))
      {
        HeadsByName(cs, j, k);
        if k > 0 {
          assert names[k - 1] == NameOf(cs[k]);
          if j > 0 { assert names[j - 1] == NameOf(cs[j]); }
        }
      }
    }
  }

  // ----- any values and any names -----

  /** A response that can be written at all: single-line texts, named additional credentials
      with owners, times that fit. Texts may contain key texts, and names equals signs. */
  predicate Formed(r: Response) {
    r.kind in {OK, ERROR, AUTHORIZATION} && AllKnown(r.auth) &&
    Additionals(r.creds) && AllTimely(r.creds) && AllOwned(r.creds) && AllTidy(Fields(Entries(r)))
  }

  function Data(r: Response): string { Render(Fields(Entries(r))) }

  /** What the lines of a response show to a lookup of q. */
  function Seen(r: Response, q: Key): seq<string> { FieldHits(Fields(Entries(r)), Text(q)) }

  lemma {:induction false} LookupSees(r: Response, q: Key, multiple: bool)
    requires Formed(r)
    ensures Convert(Data(r), Text(q), multiple) == Conclude(Seen(r, q), multiple)
  {
    BodyShape(q);
    RenderValues(Fields(Entries(r)), Text(q));
  }

  lemma {:induction false} FieldsAppend(a: seq<Entry>, b: seq<Entry>, key: string)
    ensures FieldHits(Fields(a + b), key) == FieldHits(Fields(a), key) + FieldHits(Fields(b), key)
  {
    if a == [] {
      assert a + b == b;
    } else {
      assert (a + b)[1..] == a[1..] + b;
      FieldsAppend(a[1..], b, key);
    }
  }

  /** A line shows its own key's value. */
  lemma {:induction false} OwnSeen(es: seq<Entry>, q: Key, v: string)
    requires Entry(q, v) in es
    ensures v in FieldHits(Fields(es), Text(q))
  {
    OwnKey(Text(q), v);
    if es[0] != Entry(q, v) { OwnSeen(es[1..], q, v); }
  }

  lemma {:induction false} LineSeen(es: seq<Entry>, e: Entry, key: string)
    requires e in es && Contains(Text(e.key) + e.value, key)
    ensures |FieldHits(Fields(es), key)| >= 1
  {
    if es[0] != e { LineSeen(es[1..], e, key); }
  }

  lemma {:induction false} CredEntry(c: Cred, first: bool, items: seq<Item>, i: Item)
    requires i in items && ItemValue(c, i, first).Some?
    ensures Entry(Of(HeadOf(c, first), i), ItemValue(c, i, first).value) in CredEntries(c, first, items)
  {
    if items[0] != i { CredEntry(c, first, items[1..], i); }
  }

  lemma {:induction false} ListEntry(cs: seq<Cred>, first: bool, items: seq<Item>, j: nat, i: Item)
    requires j < |cs| && i in items && ItemValue(cs[j], i, first && j == 0).Some?
    ensures Entry(Of(HeadAt(cs, first, j), i), ItemValue(cs[j], i, first && j == 0).value) in
      ListEntries(cs, first, items)
  {
    if j == 0 {
      CredEntry(cs[0], first, items, i);
    } else {
      assert HeadAt(cs[1..], false, j - 1) == HeadAt(cs, first, j);
      ListEntry(cs[1..], false, items, j - 1, i);
    }
  }

  lemma {:induction false} OwnItem(r: Response, j: nat, i: Item)
    requires r.kind == OK && j < |r.creds| && ItemValue(r.creds[j], i, j == 0).Some?
    ensures ItemValue(r.creds[j], i, j == 0).value in Seen(r, Of(HeadAt(r.creds, true, j), i))
  {
    ItemsDistinct();
    ListEntry(r.creds, true, ITEMS, j, i);
    OwnSeen(Entries(r), Of(HeadAt(r.creds, true, j), i), ItemValue(r.creds[j], i, j == 0).value);
  }

  // ----- what one credential's lookups may find -----

  /** Lookups that find at least what the credential wrote. */
  ghost predicate Present(get: Item -> Conversion, c: Cred, first: bool) {
    forall i: Item :: ItemValue(c, i, first).Some? ==>
      get(i) == Multiple || get(i) == Value(ItemValue(c, i, first).value)
  }

  /** An outcome that does not change what the reader makes of an item. */
  predicate ItemOk(g: Conversion, c: Cred, i: Item, first: bool) {
    if i == Name && !first then true
    else if i == End && first then g != Multiple || c.end == 0
    else if (i == Name || i == Desc) && first && ItemValue(c, i, first).None? then g == Missing || g == Value("")
    else g == Outcome(ItemValue(c, i, first))
  }

  ghost predicate ItemsOk(get: Item -> Conversion, c: Cred, first: bool) {
    forall i: Item :: ItemOk(get(i), c, i, first)
  }

  lemma {:induction false} OkRepeats(get: Item -> Conversion, c: Cred, first: bool)
    requires Present(get, c, first) && ItemsOk(get, c, first)
    ensures !Repeats(get, first)
  {
  }

  lemma {:induction false} OkTimes(get: Item -> Conversion, c: Cred, first: bool)
    requires Present(get, c, first) && ItemsOk(get, c, first) && Timely(c)
    ensures TimeOf(get(Start)) == Some(c.start) && TimeOf(get(End)) == Some(c.end)
  {
    TimeBack(c.start);
    TimeBack(c.end);
    assert ItemOk(get(Start), c, Start, first) && ItemOk(get(End), c, End, first);
    assert ItemValue(c, End, first).Some?;
  }

  lemma {:induction false} OkCollect(get: Item -> Conversion, c: Cred, name: Option<string>, first: bool)
    requires ItemsOk(get, c, first)
    ensures Collect(get, name, c.start, c.end, first) == NormalCred(c, first).(name := name)
  {
    assert ItemOk(get(Desc), c, Desc, first) && ItemOk(get(Owner), c, Owner, first);
    assert ItemOk(get(Retriever), c, Retriever, first) && ItemOk(get(KeyRetrievers), c, KeyRetrievers, first);
    assert ItemOk(get(RetrieverTrusted), c, RetrieverTrusted, first) && ItemOk(get(Renewer), c, Renewer, first);
    assert ItemOk(get(LockMsg), c, LockMsg, first);
  }

  lemma {:induction false} OkRead(get: Item -> Conversion, c: Cred, first: bool)
    requires Present(get, c, first) && ItemsOk(get, c, first) && Timely(c) && (first || c.name.Some?)
    ensures ReadCred(get, NameOf(c), first) == Some(NormalCred(c, first))
  {
    OkRepeats(get, c, first);
    OkTimes(get, c, first);
    var name := if first then TextOf(get(Name), false) else Some(NameOf(c));
    assert ItemOk(get(Name), c, Name, first);
    assert name == NormalCred(c, first).name;
    OkCollect(get, c, name, first);
  }

  /** An item of a credential that was read back in normal form. */
  lemma {:induction false} ReadOk(get: Item -> Conversion, c: Cred, first: bool, i: Item)
    requires Present(get, c, first) && Timely(c)
    requires ReadCred(get, NameOf(c), first) == Some(NormalCred(c, first))
    ensures ItemOk(get(i), c, i, first)
  {
    var n := NormalCred(c, first);
    var got := ReadCred(get, NameOf(c), first).value;
    assert got == n && !Repeats(get, first);
    if i == End && first {
      assert TimeOf(get(End)) == Some(got.end);
    }
  }

  // ----- lists of credentials -----

  /** A named credential whose lookups find at least what it wrote. */
  ghost predicate Written(get: Key -> Conversion, c: Cred) {
    Timely(c) && c.name.Some? && Present(ItemsOf(get, HeadOf(c, false)), c, false)
  }

  ghost predicate AllWritten(get: Key -> Conversion, cs: seq<Cred>) {
    forall j :: 0 <= j < |cs| ==> Written(get, cs[j])
  }

  ghost predicate NamedOk(get: Key -> Conversion, c: Cred) { ItemsOk(ItemsOf(get, HeadOf(c, false)), c, false) }

  ghost predicate ListOk(get: Key -> Conversion, cs: seq<Cred>) {
    forall j :: 0 <= j < |cs| ==> NamedOk(get, cs[j])
  }

  /** A credential is read back in normal form exactly when each of its lookups is fine. */
  lemma {:induction false} ReadExact(get: Item -> Conversion, c: Cred, first: bool)
    requires Present(get, c, first) && Timely(c) && (first || c.name.Some?)
    ensures ReadCred(get, NameOf(c), first) == Some(NormalCred(c, first)) <==> ItemsOk(get, c, first)
  {
    if ItemsOk(get, c, first) { OkRead(get, c, first); }
    if ReadCred(get, NameOf(c), first) == Some(NormalCred(c, first)) {
      forall i: Item ensures ItemOk(get(i), c, i, first) { ReadOk(get, c, first, i); }
    }
  }

  lemma {:induction false} ListExact(get: Key -> Conversion, cs: seq<Cred>)
    requires AllWritten(get, cs)
    ensures ReadNamed(get, Names(cs)) == Some(NormalList(cs)) <==> ListOk(get, cs)
  {
    if cs != [] {
      var c, rest := cs[0], cs[1..];
      assert Names(cs)[1..] == Names(rest);
      assert Written(get, c);
      ListExact(get, rest);
      ReadExact(ItemsOf(get, HeadOf(c, false)), c, false);
      ListOkStep(get, cs);
      ListReadStep(get, cs);
    }
  }

  lemma {:induction false} ListOkStep(get: Key -> Conversion, cs: seq<Cred>)
    requires cs != []
    ensures ListOk(get, cs) <==> NamedOk(get, cs[0]) && ListOk(get, cs[1..])
  {
    if NamedOk(get, cs[0]) && ListOk(get, cs[1..]) {
      forall j | 0 <= j < |cs| ensures NamedOk(get, cs[j]) { if j > 0 { assert cs[j] == cs[1..][j - 1]; } }
    }
  }

  lemma {:induction false} ListReadStep(get: Key -> Conversion, cs: seq<Cred>)
    requires cs != []
    ensures ReadNamed(get, Names(cs)) == Some(NormalList(cs)) <==>
      ReadCred(ItemsOf(get, HeadOf(cs[0], false)), NameOf(cs[0]), false) == Some(NormalCred(cs[0], false)) &&
      ReadNamed(get, Names(cs[1..])) == Some(NormalList(cs[1..]))
  {
    assert Names(cs)[1..] == Names(cs[1..]);
    var c := ReadCred(ItemsOf(get, HeadOf(cs[0], false)), NameOf(cs[0]), false);
    var rest := ReadNamed(get, Names(cs[1..]));
    if c.Some? && rest.Some? { SameCons(c.value, rest.value, NormalCred(cs[0], false), NormalList(cs[1..])); }
  }

  lemma SameCons(x: Cred, xs: seq<Cred>, y: Cred, ys: seq<Cred>)
    ensures [x] + xs == [y] + ys <==> x == y && xs == ys
  {
    assert ([x] + xs)[0] == x && ([x] + xs)[1..] == xs && ([y] + ys)[0] == y && ([y] + ys)[1..] == ys;
  }

  /** The credentials read carry the names they were read under. */
  lemma {:induction false} ReadNames(get: Key -> Conversion, names: seq<string>, cs: seq<Cred>)
    requires ReadNamed(get, names) == Some(NormalList(cs)) && forall j :: 0 <= j < |cs| ==> cs[j].name.Some?
    ensures names == Names(cs)
  {
    if names != [] {
      var c := ReadCred(ItemsOf(get, "CRED_" + names[0]), names[0], false).value;
      var rest := ReadNamed(get, names[1..]).value;
      assert cs != [];
      SameCons(c, rest, NormalCred(cs[0], false), NormalList(cs[1..]));
      ReadNames(get, names[1..], cs[1..]);
      assert names == [names[0]] + names[1..];
    }
  }

  lemma {:induction false} SomeNames(s: string)
    ensures ParseNames(s) != []
  {
  }

  /** Exactly when the list of additional names and their credentials are read back. */
  lemma {:induction false} MoreExact(get: Key -> Conversion, c: Cred, got: Option<Cred>, more: Conversion,
                                     rest: seq<Cred>)
    requires AllWritten(get, rest)
    requires rest != [] ==> ParseNames(JoinNames(Names(rest))) == Names(rest)
    requires rest != [] ==> more == Multiple || more == Value(JoinNames(Names(rest)))
    ensures ReadMore(got, more, get) == Some([c] + NormalList(rest)) <==>
      got == Some(c) && more == (if rest == [] then Missing else Value(JoinNames(Names(rest)))) && ListOk(get, rest)
  {
    ListExact(get, rest);
    if got.Some? && more.Missing? {
      SameCons(got.value, [], c, NormalList(rest));
      assert [got.value] + [] == [got.value];
    } else if got.Some? && more.Value? {
      SomeNames(more.text);
      var read := ReadNamed(get, ParseNames(more.text));
      if read.Some? {
        SameCons(got.value, read.value, c, NormalList(rest));
        if read.value == NormalList(rest) { ReadNames(get, ParseNames(more.text), rest); }
      }
    }
  }

  /** Exactly when a list of credentials is read back in normal form. */
  lemma {:induction false} CredsExact(get: Key -> Conversion, c: Cred, rest: seq<Cred>)
    requires Timely(c) && Present(ItemsOf(get, "CRED"), c, true) && AllWritten(get, rest)
    requires rest != [] ==> ParseNames(JoinNames(Names(rest))) == Names(rest)
    requires rest != [] ==> get(Additional) == Multiple || get(Additional) == Value(JoinNames(Names(rest)))
    ensures ReadCreds(get) == Some([NormalCred(c, true)] + NormalList(rest)) <==>
      ItemsOk(ItemsOf(get, "CRED"), c, true) && ListOk(get, rest) &&
      get(Additional) == if rest == [] then Missing else Value(JoinNames(Names(rest)))
  {
    var items := ItemsOf(get, "CRED");
    assert items(Start) == get(Of("CRED", Start)) && ItemValue(c, Start, true).Some?;
    TimeBack(c.start);
    ReadExact(items, c, true);
    NameIgnored(items, NameOf(c));
    MoreExact(get, NormalCred(c, true), ReadCred(items, "", true), get(Additional), rest);
    if items(Start) == Multiple { assert !ItemOk(items(Start), c, Start, true); }
  }

  // ----- whole responses, exactly -----

  /** The outcome of looking up q in the lines of a response. */
  function SeenBy(r: Response): Key -> Conversion { q => Conclude(Seen(r, q), false) }

  function AuthSeen(hits: seq<string>): Option<seq<Auth>> {
    if Join(hits) == "" then Some([]) else ParseAuth(Join(hits))
  }

  /** The lines show the reader of a credential list what was written: nothing but its own line
      for each item, except that an absent name or description of the first credential may
      seem empty, and that a first end time of zero may be repeated. */
  ghost predicate CredsFaithful(r: Response)
    requires r.creds != []
  {
    ItemsOk(ItemsOf(SeenBy(r), "CRED"), r.creds[0], true) && ListOk(SeenBy(r), r.creds[1..]) &&
    SeenBy(r)(Additional) == if |r.creds| == 1 then Missing else Value(JoinNames(Names(r.creds[1..])))
  }

  /** No line shows anything foreign that would change the outcome. */
  ghost predicate Faithful(r: Response) {
    |Seen(r, Version)| == 1 && |Seen(r, Kind)| == 1 &&
    if r.kind == ERROR then Join(Seen(r, Error)) == Chomp(r.error)
    else
      AuthSeen(Seen(r, Authorization)) == Some(r.auth) &&
      if r.kind == OK && r.creds != [] then CredsFaithful(r)
      else Seen(r, Of("CRED", Start)) == [] || Seen(r, Of("CRED", Start)) == [""]
  }

  lemma {:induction false} GetSees(r: Response, q: Key)
    requires Formed(r)
    ensures Getter(Data(r))(q) == SeenBy(r)(q) && Get(Data(r), q) == SeenBy(r)(q)
  {
    LookupSees(r, q, false);
  }

  /** A key that was written is found alone or not alone. */
  lemma {:induction false} WrittenSeen(r: Response, q: Key, v: string)
    requires Entry(q, v) in Entries(r)
    ensures SeenBy(r)(q) == Multiple || SeenBy(r)(q) == Value(v)
    ensures SeenBy(r)(q) == Multiple <==> |Seen(r, q)| != 1
  {
    OwnSeen(Entries(r), q, v);
  }

  lemma {:induction false} FixedWritten(r: Response)
    ensures Entry(Version, r.version) in Entries(r) && Entry(Kind, FormatInt(r.kind)) in Entries(r)
    ensures r.kind == OK && |r.creds| > 1 ==> Entry(Additional, JoinNames(Names(r.creds[1..]))) in Entries(r)
  {
    assert Front(r)[0] == Entry(Version, r.version) && Front(r)[1] == Entry(Kind, FormatInt(r.kind));
    if r.kind == OK && |r.creds| > 1 {
      assert Back(r)[0] == Entry(Additional, JoinNames(Names(r.creds[1..])));
      assert Back(r)[0] in Back(r);
    }
  }

  lemma {:induction false} PresentAt(r: Response, j: nat)
    requires Formed(r) && r.kind == OK && j < |r.creds|
    ensures Present(ItemsOf(Getter(Data(r)), HeadAt(r.creds, true, j)), r.creds[j], j == 0)
  {
    var h := HeadAt(r.creds, true, j);
    forall i: Item | ItemValue(r.creds[j], i, j == 0).Some?
      ensures ItemsOf(Getter(Data(r)), h)(i) == Multiple ||
              ItemsOf(Getter(Data(r)), h)(i) == Value(ItemValue(r.creds[j], i, j == 0).value)
    {
      GetSees(r, Of(h, i));
      OwnItem(r, j, i);
    }
  }

  lemma {:induction false} SameItems(r: Response, h: string, c: Cred, first: bool)
    requires Formed(r)
    ensures ItemsOk(ItemsOf(Getter(Data(r)), h), c, first) <==> ItemsOk(ItemsOf(SeenBy(r), h), c, first)
  {
    forall i: Item ensures ItemsOf(Getter(Data(r)), h)(i) == ItemsOf(SeenBy(r), h)(i) { GetSees(r, Of(h, i)); }
  }

  lemma {:induction false} SameList(r: Response, cs: seq<Cred>)
    requires Formed(r)
    ensures ListOk(Getter(Data(r)), cs) <==> ListOk(SeenBy(r), cs)
  {
    forall j | 0 <= j < |cs| ensures NamedOk(Getter(Data(r)), cs[j]) <==> NamedOk(SeenBy(r), cs[j]) {
      SameItems(r, HeadOf(cs[j], false), cs[j], false);
    }
  }

  lemma {:induction false} RestWritten(r: Response)
    requires Formed(r) && r.kind == OK && r.creds != []
    ensures AllWritten(Getter(Data(r)), r.creds[1..])
  {
    var rest := r.creds[1..];
    forall j | 0 <= j < |rest| ensures Written(Getter(Data(r)), rest[j]) {
      PresentAt(r, j + 1);
      assert HeadAt(r.creds, true, j + 1) == HeadOf(rest[j], false);
    }
  }

  lemma {:induction false} CredsRestored(r: Response)
    requires Formed(r) && r.kind == OK && r.creds != []
    ensures ReadCreds(Getter(Data(r))) == Some(NormalCreds(r.creds)) <==> CredsFaithful(r)
  {
    var rest := r.creds[1..];
    PresentAt(r, 0);
    RestWritten(r);
    FixedWritten(r);
    GetSees(r, Additional);
    if rest != [] {
      AdditionalNames(r.creds);
      WrittenSeen(r, Additional, JoinNames(Names(rest)));
    }
    CredsExact(Getter(Data(r)), r.creds[0], rest);
    SameItems(r, "CRED", r.creds[0], true);
    SameList(r, rest);
  }

  lemma {:induction false} NoCredsRestored(r: Response)
    requires Formed(r)
    ensures ReadCreds(Getter(Data(r))) == Some([]) <==>
      Seen(r, Of("CRED", Start)) == [] || Seen(r, Of("CRED", Start)) == [""]
  {
    GetSees(r, Of("CRED", Start));
  }

  lemma {:induction false} AuthRestored(r: Response)
    requires Formed(r)
    ensures ReadAuth(Data(r)) == AuthSeen(Seen(r, Authorization))
  {
    LookupSees(r, Authorization, true);
  }

  lemma {:induction false} ErrorRestored(r: Response)
    requires Formed(r)
    ensures ReadError(Data(r)) == Join(Seen(r, Error))
  {
    LookupSees(r, Error, true);
  }

  /** For every response that can be written: it is restored if and only if no line shows a
      lookup anything foreign that changes the outcome. */
  lemma {:induction false} ResponseExact(r: Response)
    requires Formed(r)
    ensures Serialize(r) == Some(Data(r))
    ensures Deserialize(Data(r)) == Some(Normal(r)) <==> Faithful(r)
  {
    var data := Data(r);
    FixedWritten(r);
    GetSees(r, Version);
    GetSees(r, Kind);
    WrittenSeen(r, Version, r.version);
    WrittenSeen(r, Kind, FormatInt(r.kind));
    if |Seen(r, Version)| == 1 && |Seen(r, Kind)| == 1 {
      Concluded(r, ReadError(data), ReadCreds(Getter(data)), ReadAuth(data));
      if r.kind == ERROR {
        ErrorRestored(r);
      } else {
        AuthRestored(r);
        if r.kind == OK && r.creds != [] { CredsRestored(r); } else { NoCredsRestored(r); }
      }
    }
  }

  // ----- lookups line by line -----

  predicate Shows(e: Entry, key: string) { Contains(Text(e.key) + e.value, key) }

  /** Nothing is seen of a key exactly when no line contains its text. */
  lemma {:induction false} NoneSeen(es: seq<Entry>, key: string)
    ensures FieldHits(Fields(es), key) == [] <==> forall i :: 0 <= i < |es| ==> !Shows(es[i], key)
  {
    if es != [] {
      NoneSeen(es[1..], key);
      assert FieldHits(Fields(es), key) ==
        Cons(After(Text(es[0].key) + es[0].value, key), FieldHits(Fields(es[1..]), key));
      if !Shows(es[0], key) && FieldHits(Fields(es[1..]), key) == [] {
        forall i | 0 <= i < |es| ensures !Shows(es[i], key) { if i > 0 { assert es[i] == es[1..][i - 1]; } }
      }
    }
  }

  /** A written value is seen alone exactly when no other line contains its key's text. */
  lemma {:induction false} AloneSeen(es: seq<Entry>, i: nat, q: Key, v: string)
    requires i < |es| && es[i] == Entry(q, v)
    ensures FieldHits(Fields(es), Text(q)) == [v] <==>
      forall j :: 0 <= j < |es| && j != i ==> !Shows(es[j], Text(q))
  {
    var key, a, b := Text(q), es[..i], es[i + 1..];
    assert es == a + ([es[i]] + b);
    FieldsAppend(a, [es[i]] + b, key);
    FieldsAppend([es[i]], b, key);
    OwnKey(key, v);
    assert FieldHits(Fields([es[i]]), key) == [v];
    NoneSeen(a, key);
    NoneSeen(b, key);
    var ha, hb := FieldHits(Fields(a), key), FieldHits(Fields(b), key);
    assert ha + ([v] + hb) == [v] <==> ha == [] && hb == [];
    if ha == [] && hb == [] {
      forall j | 0 <= j < |es| && j != i ensures !Shows(es[j], key) {
        if j < i { assert es[j] == a[j]; } else { assert es[j] == b[j - i - 1]; }
      }
    }
    if forall j :: 0 <= j < |es| && j != i ==> !Shows(es[j], key) {
      forall j | 0 <= j < |a| ensures !Shows(a[j], key) { assert a[j] == es[j]; }
      forall j | 0 <= j < |b| ensures !Shows(b[j], key) { assert b[j] == es[i + 1 + j]; }
    }
  }

  // ----- names that contain a key -----

  lemma {:induction false} ContainsMid(a: string, b: string, c: string, key: string)
    requires Contains(b, key)
    ensures Contains(a + b + c, key)
  {
    FindIsFirst(b, key, 0);
    FindIsFirst(a + b + c, key, 0);
    var i := FindFrom(b, key, 0).value;
    OccursBound(b, key, i);
    OccursInHead(b, c, key, i);
    OccursInTail(a, b + c, key, i);
    assert a + (b + c) == a + b + c;
  }

  /** Two credentials whose lines show the same key make it seem repeated. */
  lemma {:induction false} TwoSeen(r: Response, e: Entry, key: string)
    requires r.kind == OK && r.creds != []
    requires |FieldHits(Fields(CredEntries(r.creds[0], true, ITEMS)), key)| >= 1
    requires e in ListEntries(r.creds[1..], false, ITEMS) && Contains(Text(e.key) + e.value, key)
    ensures |FieldHits(Fields(Entries(r)), key)| >= 2
  {
    var first, rest := CredEntries(r.creds[0], true, ITEMS), ListEntries(r.creds[1..], false, ITEMS);
    LineSeen(rest, e, key);
    FieldsAppend(first, rest, key);
    FieldsAppend(Front(r), first + rest, key);
    FieldsAppend(Front(r) + (first + rest), Back(r), key);
  }

  lemma {:induction false} NameInLine(c: Cred, v: string, key: string)
    requires Contains(NameOf(c), key)
    ensures Contains(Text(Of(HeadOf(c, false), Start)) + v, key)
  {
    var tail := ItemText(Start) + v;
    ContainsMid("CRED_", NameOf(c), tail, key);
    assert "CRED_" + NameOf(c) + tail == Text(Of(HeadOf(c, false), Start)) + v;
  }

  lemma {:induction false} FirstStartSeen(r: Response, items: seq<Item>)
    requires r.creds != [] && Start in items
    ensures |FieldHits(Fields(CredEntries(r.creds[0], true, items)), Text(Of("CRED", Start)))| >= 1
  {
    CredEntry(r.creds[0], true, items, Start);
    OwnSeen(CredEntries(r.creds[0], true, items), Of("CRED", Start), TimeText(r.creds[0].start));
  }

  lemma {:induction false} NameSeen(r: Response, j: nat)
    requires r.kind == OK && 0 < j < |r.creds| && Contains(NameOf(r.creds[j]), Text(Of("CRED", Start)))
    ensures |Seen(r, Of("CRED", Start))| >= 2
  {
    var c := r.creds[j];
    ItemsDistinct();
    FirstStartSeen(r, ITEMS);
    assert r.creds[1..][j - 1] == c;
    ListEntry(r.creds[1..], false, ITEMS, j - 1, Start);
    NameInLine(c, TimeText(c.start), Text(Of("CRED", Start)));
    TwoSeen(r, Entry(Of(HeadOf(c, false), Start), TimeText(c.start)), Text(Of("CRED", Start)));
  }

  /** An additional credential whose name contains the first credential's start time key makes the
      reader reject the whole response. */
  lemma {:induction false} EqualsNameLost(r: Response, j: nat)
    requires Formed(r) && r.kind == OK && 0 < j < |r.creds|
    requires Contains(NameOf(r.creds[j]), Text(Of("CRED", Start)))
    ensures Deserialize(Data(r)) == None
  {
    NameSeen(r, j);
    GetSees(r, Of("CRED", Start));
    StartRepeated(r);
  }

  lemma {:induction false} StartRepeated(r: Response)
    requires Formed(r) && r.kind == OK && Getter(Data(r))(Of("CRED", Start)) == Multiple
    ensures Deserialize(Data(r)) == None
  {
    var data := Data(r);
    FixedWritten(r);
    GetSees(r, Kind);
    WrittenSeen(r, Kind, FormatInt(r.kind));
    IntRoundTrip(r.kind);
  }

  // ----- the list of additional names is split in place -----

  /** Offset of the first c, or 0 when there is none. */
  function Offset(p: string, c: char): nat {
    match Split(p, c)
    case None => 0
    case Some((a, _)) => |a|
  }

  method FindChr(p: string, c: char) returns (i: nat)
    ensures i == Offset(p, c)
  {
    i := 0;
    while i < |p| && p[i] != c
      invariant i <= |p| && c !in p[..i]
    {
      i := i + 1;
    }
    if i == |p| {
      assert p[..i] == p;
      SplitNone(p, c);
      return 0;
    }
    assert p == p[..i] + [c] + p[i + 1..];
    SplitAt(p[..i], c, p[i + 1..]);
  }

  lemma {:induction false} NameStep(s: string, i: nat)
    requires i == Offset(s, ',')
    ensures i == 0 ==> ParseNames(s) == [s]
    ensures i > 0 ==> i < |s| && ParseNames(s) == [s[..i]] + ParseNames(s[i + 1..])
  {
    SplitParts(s, ',');
    match Split(s, ',')
    case None =>
    case Some((name, rest)) =>
      assert s[..i] == name && s[i + 1..] == rest;
  }

  lemma NextName(s: string, len: nat, i: nat)
    requires len + i < |s|
    ensures s[len..][..i] == s[len..len + i] && s[len..][i + 1..] == s[len + i + 1..]
  {
  }

  /** The names between the commas, found with a running offset. */
  method ParseAddCreds(s: string) returns (strs: seq<string>)
    ensures strs == ParseNames(s)
  {
    strs := [];
    var len := 0;
    var tmp := FindChr(s, ',');
    assert s[0..] == s;
    while tmp != 0
      invariant 0 <= len <= |s|
      invariant tmp == Offset(s[len..], ',')
      invariant ParseNames(s) == strs + ParseNames(s[len..])
      decreases |s| - len
    {
      NameStep(s[len..], tmp);
      NextName(s, len, tmp);
      Regroup(strs, s[len..len + tmp], ParseNames(s[len + tmp + 1..]));
      strs := strs + [s[len..len + tmp]];
      len := len + tmp + 1;
      tmp := FindChr(s[len..], ',');
    }
    NameStep(s[len..], tmp);
    strs := strs + [s[len..]];
  }

  // ----- the text on the wire -----

  /** The line a credential has for an item. */
  function ItemLine(c: Cred, i: Item, first: bool): string {
    var head := if first then "CRED" else "CRED_" + NameOf(c);
    match i
    case Name => if first then Optionally("CRED_NAME=", c.name) else ""
    case Desc => Optionally(head + "_DESC=", c.desc)
    case Start => head + "_START_TIME=" + TimeText(c.start) + "\n"
    case End => head + "_END_TIME=" + TimeText(c.end) + "\n"
    case Owner => Optionally(head + "_OWNER=", c.owner)
    case Retriever => Optionally(head + "_RETRIEVER=", c.retrievers)
    case KeyRetrievers => Optionally(head + "_KEYRETRIEVERS=", c.keyRetrievers)
    case RetrieverTrusted => Optionally(head + "_RETRIEVER_TRUSTED=", c.trusted)
    case Renewer => Optionally(head + "_RENEWER=", c.renewers)
    case LockMsg => Optionally(head + "_LOCKMSG=", FirstLineOf(c.lock))
  }

  function ItemLines(c: Cred, items: seq<Item>, first: bool): string {
    if items == [] then "" else ItemLine(c, items[0], first) + ItemLines(c, items[1..], first)
  }

  function CredLines(cs: seq<Cred>, items: seq<Item>, first: bool): string {
    if cs == [] then "" else ItemLines(cs[0], items, first) + CredLines(cs[1..], items, false)
  }

  function Rendered(es: seq<Entry>): string { Render(Fields(es)) }

  lemma ConcatAssoc(a: string, b: string, c: string)
    ensures a + (b + c) == (a + b) + c
  {
  }

  lemma RenderedCons(e: Entry, es: seq<Entry>)
    ensures Rendered([e] + es) == Text(e.key) + e.value + "\n" + Rendered(es)
  {
    assert ([e] + es)[1..] == es;
  }

  lemma {:induction false} RenderedAppend(a: seq<Entry>, b: seq<Entry>)
    ensures Rendered(a + b) == Rendered(a) + Rendered(b)
  {
    if a == [] {
      assert a + b == b;
    } else {
      assert a == [a[0]] + a[1..] && a + b == [a[0]] + (a[1..] + b);
      RenderedCons(a[0], a[1..]);
      RenderedCons(a[0], a[1..] + b);
      RenderedAppend(a[1..], b);
      ConcatAssoc(Text(a[0].key) + a[0].value + "\n", Rendered(a[1..]), Rendered(b));
    }
  }

  lemma {:induction false} ItemSpelled(c: Cred, i: Item, first: bool)
    ensures Optionally(Text(Of(HeadOf(c, first), i)), ItemValue(c, i, first)) == ItemLine(c, i, first)
  {
    if i == Name { assert "CRED" + "_NAME=" == "CRED_NAME="; }
  }

  lemma {:induction false} CredFormat(c: Cred, items: seq<Item>, first: bool)
    ensures Rendered(CredEntries(c, first, items)) == ItemLines(c, items, first)
  {
    if items != [] {
      CredFormat(c, items[1..], first);
      ItemSpelled(c, items[0], first);
      var v, rest := ItemValue(c, items[0], first), CredEntries(c, first, items[1..]);
      if v.Some? { RenderedCons(Entry(Of(HeadOf(c, first), items[0]), v.value), rest); }
    }
  }

  lemma {:induction false} ListFormat(cs: seq<Cred>, items: seq<Item>, first: bool)
    ensures Rendered(ListEntries(cs, first, items)) == CredLines(cs, items, first)
  {
    if cs != [] {
      CredFormat(cs[0], items, first);
      ListFormat(cs[1..], items, false);
      RenderedAppend(CredEntries(cs[0], first, items), ListEntries(cs[1..], false, items));
    }
  }

  lemma {:induction false} RepeatedFormat(k: Key, values: seq<string>)
    ensures Rendered(Repeated(k, values)) == Each(Text(k), values)
  {
    if values != [] {
      RenderedCons(Entry(k, values[0]), Repeated(k, values[1..]));
      RepeatedFormat(k, values[1..]);
    }
  }

  function FrontLines(r: Response): string {
    "VERSION=" + r.version + "\n" +
    ("RESPONSE=" + FormatInt(r.kind) + "\n" + Each("AUTHORIZATION_DATA=", AuthTexts(r.auth)))
  }

  lemma {:induction false} FrontFormat(r: Response)
    ensures Rendered(Front(r)) == FrontLines(r)
  {
    var auth := Repeated(Authorization, AuthTexts(r.auth));
    var v, k := Entry(Version, r.version), Entry(Kind, FormatInt(r.kind));
    assert Front(r) == [v] + ([k] + auth);
    RenderedCons(v, [k] + auth);
    RenderedCons(k, auth);
    RepeatedFormat(Authorization, AuthTexts(r.auth));
    FixedTexts();
  }

  lemma FixedTexts()
    ensures Text(Version) == "VERSION=" && Text(Kind) == "RESPONSE=" && Text(Authorization) == "AUTHORIZATION_DATA="
    ensures Text(Additional) == "ADDL_CREDS=" && Text(Error) == "ERROR="
  {
  }

  function BackLines(r: Response): string {
    (if r.kind == 0 && |r.creds| > 1 then "ADDL_CREDS=" + JoinNames(Names(r.creds[1..])) + "\n" else "") +
    (if r.kind == 1 then Each("ERROR=", ErrorLines(r.error)) else "")
  }

  lemma {:induction false} BackFormat(r: Response)
    ensures Rendered(Back(r)) == BackLines(r)
  {
    var more := if r.kind == OK && |r.creds| > 1 then [Entry(Additional, JoinNames(Names(r.creds[1..])))] else [];
    var error := if r.kind == ERROR then Repeated(Error, ErrorLines(r.error)) else [];
    RenderedAppend(more, error);
    if more != [] {
      assert more == [more[0]] + [];
      RenderedCons(more[0], []);
    }
    RepeatedFormat(Error, ErrorLines(r.error));
    FixedTexts();
  }

  /** The message is the lines of its parts, each with the key of the protocol. */
  lemma {:induction false} WireFormat(r: Response, items: seq<Item>)
    ensures Rendered(EntriesBy(r, items)) ==
      FrontLines(r) + (if r.kind == 0 then CredLines(r.creds, items, true) else "") + BackLines(r)
  {
    var creds := if r.kind == OK then ListEntries(r.creds, true, items) else [];
    FrontFormat(r);
    BackFormat(r);
    ListFormat(r.creds, items, true);
    RenderedAppend(Front(r) + creds, Back(r));
    RenderedAppend(Front(r), creds);
  }

  /** The three kinds of response can be sent, and no other. */
  lemma KindsExact(r: Response)
    ensures Serialize(r).Some? <==> r.kind in {0, 1, 2}
  {
  }
}
