/** The client request: what the server reads is what the client meant, and exactly when. */
module Request {
  import opened Common
  import opened Lookup
  import opened Numbers

  // ----- the fields of a request message -----

  datatype Key =
    | Version | Command | Username | Passphrase | NewPhrase | Lifetime | Retriever | Renewer | CredName
    | CredDesc | KeyRetrievers | RetrieverTrusted | TrustedCerts | Voname | Vomses

  function Text(k: Key): string {
    match k
    case Version => "VERSION="
    case Command => "COMMAND="
    case Username => "USERNAME="
    case Passphrase => "PASSPHRASE="
    case NewPhrase => "NEW_PHRASE="
    case Lifetime => "LIFETIME="
    case Retriever => "RETRIEVER="
    case Renewer => "RENEWER="
    case CredName => "CRED_NAME="
    case CredDesc => "CRED_DESC="
    case KeyRetrievers => "KEYRETRIEVERS="
    case RetrieverTrusted => "RETRIEVER_TRUSTED="
    case TrustedCerts => "TRUSTED_CERTS="
    case Voname => "VONAME="
    case Vomses => "VOMSES="
  }

  /** The order in which a request is written. */
  const ORDER: seq<Key> :=
    [Version, Command, Username, Passphrase, NewPhrase, Lifetime, Retriever, Renewer, CredName,
     CredDesc, KeyRetrievers, RetrieverTrusted, TrustedCerts, Voname, Vomses]

  /** Three characters near its end that tell a key from all others but one. */
  function Ending(k: Key): (char, char, char) {
    match k
    case Version => ('N', 'O', 'R')
    case Command => ('D', 'N', 'M')
    case Username => ('E', 'M', 'R')
    case Passphrase => ('E', 'S', 'H')
    case NewPhrase => ('E', 'S', 'H')
    case Lifetime => ('E', 'M', 'E')
    case Retriever => ('R', 'E', 'I')
    case Renewer => ('R', 'E', 'N')
    case CredName => ('E', 'M', '_')
    case CredDesc => ('C', 'S', '_')
    case KeyRetrievers => ('S', 'R', 'E')
    case RetrieverTrusted => ('D', 'E', 'U')
    case TrustedCerts => ('S', 'T', 'C')
    case Voname => ('E', 'M', 'O')
    case Vomses => ('S', 'E', 'O')
  }

  lemma TextEnding(k: Key)
    ensures var t := Text(k);
      |t| >= 7 && (FromEnd(t, 2), FromEnd(t, 3), FromEnd(t, 6)) == Ending(k)
  {
  }

  lemma ShortTextIsKey(k: Key)
    requires |Text(k)| <= 9
    ensures IsKey(Text(k))
  {
  }

  lemma MiddleTextIsKey(k: Key)
    requires 9 < |Text(k)| <= 11
    ensures IsKey(Text(k))
  {
  }

  lemma LongTextIsKey(k: Key)
    requires |Text(k)| > 11
    ensures IsKey(Text(k))
  {
  }

  lemma TextIsKey(k: Key)
    ensures IsKey(Text(k))
  {
    if |Text(k)| <= 9 { ShortTextIsKey(k); }
    else if |Text(k)| <= 11 { MiddleTextIsKey(k); }
    else { LongTextIsKey(k); }
  }

  lemma SuffixEnding(a: Key, b: Key)
    requires IsSuffix(Text(a), Text(b))
    ensures Ending(a) == Ending(b)
  {
    TextEnding(a);
    TextEnding(b);
    SuffixChar(Text(a), Text(b), 2);
    SuffixChar(Text(a), Text(b), 3);
    SuffixChar(Text(a), Text(b), 6);
  }

  /** No key of a request ends in another: the scan cannot confuse them. */
  lemma KeysSuffixFree(a: Key, b: Key)
    requires a != b
    ensures !IsSuffix(Text(a), Text(b))
  {
    if IsSuffix(Text(a), Text(b)) {
      SuffixEnding(a, b);
      assert a.Passphrase? || a.NewPhrase?;
      SuffixChar(Text(a), Text(b), 11);
    }
  }

  /** The table of raw key strings is not suffix-free, against the warning above it: only the
      prefix written before NAME= keeps it apart from USERNAME=. */
  lemma RawTableIsNotSuffixFree()
    ensures IsSuffix("NAME=", Text(Username)) && IsSuffix("NAME=", Text(Voname))
  {
    SelfSuffix(Text(Username), 4);
    SelfSuffix(Text(Voname), 2);
    assert Text(Username)[4..] == "NAME=" && Text(Voname)[2..] == "NAME=";
  }

  // ----- what a lookup sees in a request -----

  datatype Entry = Entry(key: Key, value: string)

  function Fields(es: seq<Entry>): (fs: seq<Field>)
    ensures |fs| == |es|
    ensures forall i :: 0 <= i < |es| ==> fs[i] == Field(Text(es[i].key), es[i].value)
  {
    if es == [] then [] else [Field(Text(es[0].key), es[0].value)] + Fields(es[1..])
  }

  /** The values stored under key q. */
  function Own(es: seq<Entry>, q: Key): seq<string> {
    if es == [] then []
    else if es[0].key == q then [es[0].value] + Own(es[1..], q)
    else Own(es[1..], q)
  }

  /** What the values of other keys hold behind the text of key q. */
  function Foreign(es: seq<Entry>, q: Key): seq<string> {
    if es == [] then []
    else Cons(if es[0].key == q then None else After(es[0].value, Text(q)), Foreign(es[1..], q))
  }

  function SeenIn(es: seq<Entry>, q: Key): seq<string> {
    if es == [] then []
    else Cons(if es[0].key == q then Some(es[0].value) else After(es[0].value, Text(q)), SeenIn(es[1..], q))
  }

  lemma {:induction false} SeenSplits(es: seq<Entry>, q: Key)
    ensures |SeenIn(es, q)| == |Own(es, q)| + |Foreign(es, q)|
    ensures Foreign(es, q) == [] ==> SeenIn(es, q) == Own(es, q)
    ensures Own(es, q) == [] ==> SeenIn(es, q) == Foreign(es, q)
  {
    if es != [] { SeenSplits(es[1..], q); }
  }

  lemma {:induction false} SeenByLookup(es: seq<Entry>, q: Key)
    ensures AllSeen(Fields(es), Text(q)) == SeenIn(es, q)
  {
    if es != [] {
      SeenByLookup(es[1..], q);
      assert Fields(es)[1..] == Fields(es[1..]);
      if es[0].key != q {
        KeysSuffixFree(q, es[0].key);
        OccursInSelf(Text(q));
      }
    }
  }

  ghost predicate OneLiners(es: seq<Entry>) {
    forall i :: 0 <= i < |es| ==> OneLine(es[i].value)
  }

  /** The lookup of q in a rendered request. */
  lemma {:induction false} RequestLookup(es: seq<Entry>, q: Key, multiple: bool)
    requires OneLiners(es)
    ensures Convert(Render(Fields(es)), Text(q), multiple) == Conclude(SeenIn(es, q), multiple)
  {
    var fs := Fields(es);
    TextIsKey(q);
    forall i | 0 <= i < |es|
      ensures Tidy(fs[i]) && IsKey(fs[i].key) && (fs[i].key == Text(q) || !IsSuffix(Text(q), fs[i].key))
    {
      TextIsKey(es[i].key);
      if es[i].key != q { KeysSuffixFree(q, es[i].key); }
    }
    RenderedLookup(fs, Text(q), multiple);
    SeenByLookup(es, q);
  }

  // ----- requests -----

  const MAX_PASS_LEN: nat := 1024

  datatype RequestData = RequestData(
    version: string, command: int, username: string, passphrase: string, newPassphrase: string, lifetime: int,
    retrievers: Option<string>, renewers: Option<string>, credname: Option<string>, creddesc: Option<string>,
    keyretrieve: Option<string>, trustedRetrievers: Option<string>, wantTrustedCerts: int,
    voname: Option<string>, vomses: Option<string>)

  function Strip(s: string): string {
    if s == "" then "" else (if s[0] == '\n' then "" else [s[0]]) + Strip(s[1..])
  }

  /** The non-empty lines of a list value, as strtok delivers them. */
  function Tokens(s: string): seq<string>
    decreases |s|
  {
    if s == "" then []
    else if s[0] == '\n' then Tokens(s[1..])
    else
      var e := LineEnd(s, 0);
      [s[..e]] + Tokens(s[e..])
  }

  function OptionSeq(o: Option<string>): seq<string> { if o.Some? then [o.value] else [] }

  /** The values a request puts under key k. */
  function ValuesOf(r: RequestData, k: Key): seq<string> {
    match k
    case Version => [r.version]
    case Command => [FormatInt(r.command)]
    case Username => [r.username]
    case Passphrase => [r.passphrase]
    case NewPhrase => if r.newPassphrase == "" then [] else [r.newPassphrase]
    case Lifetime => [FormatInt(r.lifetime)]
    case Retriever => OptionSeq(r.retrievers)
    case Renewer => OptionSeq(r.renewers)
    case CredName => if r.credname.Some? then [Strip(r.credname.value)] else []
    case CredDesc => if r.creddesc.Some? then [Strip(r.creddesc.value)] else []
    case KeyRetrievers => OptionSeq(r.keyretrieve)
    case RetrieverTrusted => OptionSeq(r.trustedRetrievers)
    case TrustedCerts => if r.wantTrustedCerts != 0 then ["1"] else []
    case Voname => if r.voname.Some? then Tokens(r.voname.value) else []
    case Vomses => if r.vomses.Some? then Tokens(r.vomses.value) else []
  }

  function EntriesFor(k: Key, values: seq<string>): (es: seq<Entry>)
    ensures |es| == |values|
    ensures forall i :: 0 <= i < |es| ==> es[i] == Entry(k, values[i])
  {
    if values == [] then [] else [Entry(k, values[0])] + EntriesFor(k, values[1..])
  }

  function EntriesOf(r: RequestData, keys: seq<Key>): seq<Entry> {
    if keys == [] then [] else EntriesFor(keys[0], ValuesOf(r, keys[0])) + EntriesOf(r, keys[1..])
  }

  /** A request with a known command as the text that is sent. */
  function Serialize(r: RequestData): Option<string> {
    if 0 <= r.command <= 7 then Some(Render(Fields(EntriesOf(r, ORDER)))) else None
  }

  lemma {:induction false} TokensSkip(s: string, p: nat)
    requires p < |s| && s[p] == '\n'
    ensures Tokens(s[p..]) == Tokens(s[p + 1..])
  {
    assert s[p..][1..] == s[p + 1..];
  }

  lemma {:induction false} TokensTake(s: string, p: nat)
    requires p < |s| && s[p] != '\n'
    ensures Tokens(s[p..]) == [s[p..LineEnd(s, p)]] + Tokens(s[LineEnd(s, p)..]) && LineEnd(s, p) > p
  {
    var t, e := s[p..], LineEnd(s, p);
    ShiftLineEnd(s, p, t, 0);
    assert t[..e - p] == s[p..e] && t[e - p..] == s[e..];
  }

  lemma {:induction false} RenderStep(k: Key, value: string, rest: seq<string>)
    ensures Render(Fields(EntriesFor(k, [value] + rest))) ==
      Text(k) + value + "\n" + Render(Fields(EntriesFor(k, rest)))
  {
    assert ([value] + rest)[1..] == rest;
  }

  lemma Associate(a: string, b: string, c: string)
    ensures a + (b + c) == (a + b) + c
  {
  }

  /** Append one field per token of a list, the tokens taken one by one from the text. */
  method AppendTokens(data: string, k: Key, list: string) returns (out: string)
    ensures out == data + Render(Fields(EntriesFor(k, Tokens(list))))
  {
    out := data;
    var p := 0;
    assert list[0..] == list;
    while p < |list|
      invariant 0 <= p <= |list|
      invariant out + Render(Fields(EntriesFor(k, Tokens(list[p..])))) ==
        data + Render(Fields(EntriesFor(k, Tokens(list))))
    {
      if list[p] == '\n' {
        TokensSkip(list, p);
        p := p + 1;
      } else {
        TokensTake(list, p);
        var e := LineEnd(list, p);
        RenderStep(k, list[p..e], Tokens(list[e..]));
        Associate(out, Text(k) + list[p..e] + "\n", Render(Fields(EntriesFor(k, Tokens(list[e..])))));
        out := out + (Text(k) + list[p..e] + "\n");
        p := e;
      }
    }
  }

  predicate IsList(k: Key) { k == Voname || k == Vomses }

  /** strncpy into a passphrase buffer. */
  function Truncate(s: string): string { if |s| <= MAX_PASS_LEN then s else s[..MAX_PASS_LEN] }

  function Optional(c: Conversion): Option<string> { if c.Value? then Some(c.text) else None }

  predicate IsNumber(c: Conversion) { c.Value? && StringToInt(c.text).Number? }

  /** Build the request from the outcome of each lookup; any failed one fails the whole. */
  function Assemble(c: Key -> Conversion): Option<RequestData> {
    if (exists k :: c(k).Multiple?) then None
    else if !c(Version).Value? || !IsNumber(c(Command)) || !c(Username).Value? || !c(Passphrase).Value?
         || !IsNumber(c(Lifetime)) || (c(TrustedCerts).Value? && !IsNumber(c(TrustedCerts))) then None
    else Some(RequestData(
      c(Version).text, StringToInt(c(Command).text).value, c(Username).text, Truncate(c(Passphrase).text),
      if c(NewPhrase).Value? then Truncate(c(NewPhrase).text) else "",
      StringToInt(c(Lifetime).text).value,
      Optional(c(Retriever)), Optional(c(Renewer)), Optional(c(CredName)), Optional(c(CredDesc)),
      Optional(c(KeyRetrievers)), Optional(c(RetrieverTrusted)),
      if c(TrustedCerts).Value? then StringToInt(c(TrustedCerts).text).value else 0,
      Optional(c(Voname)), Optional(c(Vomses))))
  }

  function Deserialize(data: string): Option<RequestData> {
    Assemble(k => Convert(data, Text(k), IsList(k)))
  }

  // ----- the round trip -----

  predicate Line(o: Option<string>) { o.Some? ==> OneLine(o.value) }

  /** A list value built line by line, each line non-empty. */
  predicate ListValue(o: Option<string>) {
    o.Some? ==> Tokens(o.value) != [] && Join(Tokens(o.value)) == o.value
  }

  /** Requests a client can build: known commands, int lifetimes, and no line breaks but in the
      values that are cleaned or sent line by line. */
  predicate Formed(r: RequestData) {
    && OneLine(r.version) && OneLine(r.username) && OneLine(r.passphrase) && OneLine(r.newPassphrase)
    && 0 <= r.command <= 7 && IsInt(r.lifetime)
    && Line(r.retrievers) && Line(r.renewers) && Line(r.keyretrieve) && Line(r.trustedRetrievers)
  }

  /** Those that need no cleaning and fit the server's buffers. */
  predicate Proper(r: RequestData) {
    && Formed(r) && |r.passphrase| <= 1024 && |r.newPassphrase| <= 1024
    && (r.wantTrustedCerts == 0 || r.wantTrustedCerts == 1)
    && Line(r.credname) && Line(r.creddesc) && ListValue(r.voname) && ListValue(r.vomses)
  }

  function Cut(s: string): string { if |s| > 1024 then s[..1024] else s }

  function Cleaned(o: Option<string>): Option<string> { if o.Some? then Some(Strip(o.value)) else None }

  function Lines(o: Option<string>): Option<string> {
    if o.Some? && Tokens(o.value) != [] then Some(Join(Tokens(o.value))) else None
  }

  /** What the server is to make of a request: passphrases are cut to their buffers, names and
      descriptions lose their line breaks, lists their empty lines, and any wish is a wish. */
  function Meant(r: RequestData): RequestData {
    r.(passphrase := Cut(r.passphrase), newPassphrase := Cut(r.newPassphrase),
       credname := Cleaned(r.credname), creddesc := Cleaned(r.creddesc),
       wantTrustedCerts := if r.wantTrustedCerts == 0 then 0 else 1,
       voname := Lines(r.voname), vomses := Lines(r.vomses))
  }

  lemma {:induction false} ProperMeant(r: RequestData)
    requires Proper(r)
    ensures Meant(r) == r
  {
    if r.credname.Some? { StripOneLine(r.credname.value); }
    if r.creddesc.Some? { StripOneLine(r.creddesc.value); }
  }

  /** The outcome c of looking up key q restores the request's part. */
  predicate Restores(r: RequestData, q: Key, c: Conversion) {
    match q
    case Version => c == Value(r.version)
    case Command => c.Value? && StringToInt(c.text) == Number(r.command)
    case Username => c == Value(r.username)
    case Passphrase => c.Value? && Truncate(c.text) == r.passphrase
    case NewPhrase => !c.Multiple? && (if c.Value? then Truncate(c.text) else "") == r.newPassphrase
    case Lifetime => c.Value? && StringToInt(c.text) == Number(r.lifetime)
    case Retriever => !c.Multiple? && Optional(c) == r.retrievers
    case Renewer => !c.Multiple? && Optional(c) == r.renewers
    case CredName => !c.Multiple? && Optional(c) == r.credname
    case CredDesc => !c.Multiple? && Optional(c) == r.creddesc
    case KeyRetrievers => !c.Multiple? && Optional(c) == r.keyretrieve
    case RetrieverTrusted => !c.Multiple? && Optional(c) == r.trustedRetrievers
    case TrustedCerts =>
      if c.Value? then StringToInt(c.text) == Number(r.wantTrustedCerts) else c.Missing? && r.wantTrustedCerts == 0
    case Voname => !c.Multiple? && Optional(c) == r.voname
    case Vomses => !c.Multiple? && Optional(c) == r.vomses
  }

  lemma RestoredText(r: RequestData, c: Key -> Conversion)
    requires forall q :: Restores(r, q, c(q))
    ensures c(Version) == Value(r.version) && c(Username) == Value(r.username)
    ensures c(Passphrase).Value? && Truncate(c(Passphrase).text) == r.passphrase
    ensures (if c(NewPhrase).Value? then Truncate(c(NewPhrase).text) else "") == r.newPassphrase
    ensures Optional(c(Voname)) == r.voname && Optional(c(Vomses)) == r.vomses
  {
    assert Restores(r, Version, c(Version)) && Restores(r, Username, c(Username));
    assert Restores(r, Passphrase, c(Passphrase)) && Restores(r, NewPhrase, c(NewPhrase));
    assert Restores(r, Voname, c(Voname)) && Restores(r, Vomses, c(Vomses));
  }

  lemma RestoredNumbers(r: RequestData, c: Key -> Conversion)
    requires forall q :: Restores(r, q, c(q))
    ensures c(Command).Value? && StringToInt(c(Command).text) == Number(r.command)
    ensures c(Lifetime).Value? && StringToInt(c(Lifetime).text) == Number(r.lifetime)
    ensures if c(TrustedCerts).Value? then StringToInt(c(TrustedCerts).text) == Number(r.wantTrustedCerts)
            else r.wantTrustedCerts == 0
  {
    assert Restores(r, Command, c(Command)) && Restores(r, Lifetime, c(Lifetime));
    assert Restores(r, TrustedCerts, c(TrustedCerts));
  }

  lemma RestoredOptions(r: RequestData, c: Key -> Conversion)
    requires forall q :: Restores(r, q, c(q))
    ensures Optional(c(Retriever)) == r.retrievers && Optional(c(Renewer)) == r.renewers
    ensures Optional(c(CredName)) == r.credname && Optional(c(CredDesc)) == r.creddesc
    ensures Optional(c(KeyRetrievers)) == r.keyretrieve && Optional(c(RetrieverTrusted)) == r.trustedRetrievers
  {
    assert Restores(r, Retriever, c(Retriever)) && Restores(r, Renewer, c(Renewer));
    assert Restores(r, CredName, c(CredName));
    assert Restores(r, CredDesc, c(CredDesc)) && Restores(r, KeyRetrievers, c(KeyRetrievers));
    assert Restores(r, RetrieverTrusted, c(RetrieverTrusted));
  }

  lemma RestoresOne(r: RequestData, q: Key, c: Conversion)
    requires Restores(r, q, c)
    ensures !c.Multiple?
  {
  }

  lemma AssembleRestored(r: RequestData, c: Key -> Conversion)
    requires forall q :: Restores(r, q, c(q))
    ensures Assemble(c) == Some(r)
  {
    forall q ensures !c(q).Multiple? { RestoresOne(r, q, c(q)); }
    RestoredText(r, c);
    RestoredNumbers(r, c);
    RestoredOptions(r, c);
  }

  lemma AssembleComplete(r: RequestData, c: Key -> Conversion, q: Key)
    requires Assemble(c) == Some(r)
    ensures Restores(r, q, c(q))
  {
    assert !c(q).Multiple?;
  }

  // The entries of a request hold each key's values and nothing else.

  lemma {:induction false} OwnAppend(a: seq<Entry>, b: seq<Entry>, q: Key)
    ensures Own(a + b, q) == Own(a, q) + Own(b, q)
  {
    if a == [] {
      assert a + b == b;
    } else {
      OwnAppend(a[1..], b, q);
      assert (a + b)[1..] == a[1..] + b && (a + b)[0] == a[0];
    }
  }

  lemma {:induction false} OwnOfKey(k: Key, values: seq<string>, q: Key)
    ensures Own(EntriesFor(k, values), q) == if k == q then values else []
  {
    if values != [] {
      OwnOfKey(k, values[1..], q);
      assert EntriesFor(k, values)[1..] == EntriesFor(k, values[1..]);
    }
  }

  lemma {:induction false} OwnFirst(k: Key, values: seq<string>, rest: seq<Entry>, q: Key)
    ensures k == q && Own(rest, q) == [] ==> Own(EntriesFor(k, values) + rest, q) == values
    ensures k != q ==> Own(EntriesFor(k, values) + rest, q) == Own(rest, q)
  {
    OwnOfKey(k, values, q);
    OwnAppend(EntriesFor(k, values), rest, q);
    assert values + [] == values && [] + Own(rest, q) == Own(rest, q);
  }

  lemma {:induction false} OwnOfKeys(r: RequestData, keys: seq<Key>, q: Key)
    requires forall i, j :: 0 <= i < j < |keys| ==> keys[i] != keys[j]
    ensures Own(EntriesOf(r, keys), q) == if q in keys then ValuesOf(r, q) else []
  {
    if keys != [] {
      OwnOfKeys(r, keys[1..], q);
      OwnFirst(keys[0], ValuesOf(r, keys[0]), EntriesOf(r, keys[1..]), q);
      assert keys == [keys[0]] + keys[1..];
    }
  }

  /** All keys, each once. */
  ghost predicate IsOrder(keys: seq<Key>) {
    && (forall i, j :: 0 <= i < j < |keys| ==> keys[i] != keys[j])
    && forall q: Key :: q in keys
  }

  lemma OrderIsOrder()
    ensures IsOrder(ORDER)
  {
    forall q: Key ensures q in ORDER {
      var i := match q
        case Version => 0 case Command => 1 case Username => 2 case Passphrase => 3 case NewPhrase => 4
        case Lifetime => 5 case Retriever => 6 case Renewer => 7 case CredName => 8 case CredDesc => 9
        case KeyRetrievers => 10 case RetrieverTrusted => 11 case TrustedCerts => 12
        case Voname => 13 case Vomses => 14;
      assert ORDER[i] == q;
    }
  }

  // All values are single lines.

  ghost predicate AllOneLine(vs: seq<string>) { forall i :: 0 <= i < |vs| ==> OneLine(vs[i]) }

  lemma {:induction false} DecimalOneLine(n: nat)
    ensures OneLine(Decimal(n))
  {
    if n >= 10 { DecimalOneLine(n / 10); }
  }

  lemma {:induction false} StripClean(s: string)
    ensures OneLine(Strip(s))
  {
    if s != "" { StripClean(s[1..]); }
  }

  lemma {:induction false} StripOneLine(s: string)
    requires OneLine(s)
    ensures Strip(s) == s
  {
    if s != "" { StripOneLine(s[1..]); }
  }

  lemma {:induction false} LineEndClear(s: string, p: nat)
    requires p <= |s|
    ensures OneLine(s[p..LineEnd(s, p)])
    decreases |s| - p
  {
    var e := LineEnd(s, p);
    if p < e {
      LineEndClear(s, p + 1);
      assert s[p..e] == [s[p]] + s[p + 1..e];
    }
  }

  lemma {:induction false} TokensOneLine(s: string)
    ensures AllOneLine(Tokens(s))
    decreases |s|
  {
    if s == "" {
    } else if s[0] == '\n' {
      TokensOneLine(s[1..]);
    } else {
      var e := LineEnd(s, 0);
      LineEndClear(s, 0);
      assert s[..e] == s[0..e];
      TokensOneLine(s[e..]);
    }
  }

  lemma {:induction false} ValuesOneLine(r: RequestData, k: Key)
    requires Formed(r)
    ensures AllOneLine(ValuesOf(r, k))
  {
    match k
    case Command => DecimalOneLine(r.command);
    case Lifetime => DecimalOneLine(if r.lifetime < 0 then -r.lifetime else r.lifetime);
    case CredName => if r.credname.Some? { StripClean(r.credname.value); }
    case CredDesc => if r.creddesc.Some? { StripClean(r.creddesc.value); }
    case Voname => if r.voname.Some? { TokensOneLine(r.voname.value); }
    case Vomses => if r.vomses.Some? { TokensOneLine(r.vomses.value); }
    case _ =>
  }

  lemma {:induction false} EntriesOneLine(r: RequestData, keys: seq<Key>)
    requires Formed(r)
    ensures OneLiners(EntriesOf(r, keys))
  {
    if keys != [] {
      ValuesOneLine(r, keys[0]);
      EntriesOneLine(r, keys[1..]);
    }
  }

  lemma {:induction false} SeenOneLine(es: seq<Entry>, q: Key)
    requires OneLiners(es)
    ensures AllOneLine(SeenIn(es, q))
  {
    if es != [] { SeenOneLine(es[1..], q); }
  }

  function Breaks(s: string): nat {
    if s == "" then 0 else (if s[0] == '\n' then 1 else 0) + Breaks(s[1..])
  }

  lemma {:induction false} BreaksAppend(a: string, b: string)
    ensures Breaks(a + b) == Breaks(a) + Breaks(b)
  {
    if a == "" {
      assert a + b == b;
    } else {
      BreaksAppend(a[1..], b);
      assert (a + b)[1..] == a[1..] + b;
    }
  }

  lemma {:induction false} NoBreaks(s: string)
    requires OneLine(s)
    ensures Breaks(s) == 0
  {
    if s != "" { NoBreaks(s[1..]); }
  }

  /** A joined list tells how many lines it was made of. */
  lemma {:induction false} JoinBreaks(vs: seq<string>)
    requires vs != [] && AllOneLine(vs)
    ensures Breaks(Join(vs)) == |vs| - 1
  {
    NoBreaks(vs[0]);
    if |vs| > 1 {
      JoinBreaks(vs[1..]);
      BreaksAppend(vs[0], "\n");
      BreaksAppend(vs[0] + "\n", Join(vs[1..]));
      assert Breaks("\n") == 1;
    }
  }

  // ----- exactly when the round trip succeeds -----

  /** What other values hold behind the text of key q does no harm: there is nothing, or the
      request leaves q out and the text found there happens to say so too. */
  predicate HarmlessText(r: RequestData, q: Key, foreign: seq<string>) {
    || foreign == []
    || (q == NewPhrase && r.newPassphrase == "" && foreign == [""])
    || (q == TrustedCerts && r.wantTrustedCerts == 0 && |foreign| == 1 && StringToInt(foreign[0]) == Number(0))
  }

  predicate Harmless(r: RequestData, keys: seq<Key>, q: Key) {
    HarmlessText(r, q, Foreign(EntriesOf(r, keys), q))
  }

  /** What a single-valued lookup concludes from the own and the foreign values. */
  function SingleOutcome(own: seq<string>, foreign: seq<string>): Conversion {
    if |own| + |foreign| > 1 then Multiple
    else if |own| == 1 then Value(own[0])
    else if |foreign| == 1 then Value(foreign[0])
    else Missing
  }

  lemma {:induction false} SingleLookup(r: RequestData, keys: seq<Key>, q: Key)
    requires IsOrder(keys)
    ensures Conclude(SeenIn(EntriesOf(r, keys), q), false)
         == SingleOutcome(ValuesOf(r, q), Foreign(EntriesOf(r, keys), q))
  {
    SeenSplits(EntriesOf(r, keys), q);
    OwnOfKeys(r, keys, q);
  }

  lemma {:induction false} NumberKey(r: RequestData, q: Key, foreign: seq<string>)
    requires Formed(r) && (q.Command? || q.Lifetime? || q.TrustedCerts?)
    ensures Restores(Meant(r), q, SingleOutcome(ValuesOf(r, q), foreign)) <==> HarmlessText(r, q, foreign)
  {
    IntRoundTrip(r.command);
    IntRoundTrip(r.lifetime);
    IntRoundTrip(1);
    assert FormatInt(1) == "1";
  }

  lemma {:induction false} TextKey(r: RequestData, q: Key, foreign: seq<string>)
    requires Formed(r) && !IsList(q) && !q.Command? && !q.Lifetime? && !q.TrustedCerts?
    ensures Restores(Meant(r), q, SingleOutcome(ValuesOf(r, q), foreign)) <==> HarmlessText(r, q, foreign)
  {
  }

  /** A list key: one more value would mean one more line. */
  lemma {:induction false} ListKey(r: RequestData, keys: seq<Key>, q: Key)
    requires Formed(r) && IsOrder(keys) && IsList(q)
    ensures Restores(Meant(r), q, Conclude(SeenIn(EntriesOf(r, keys), q), true)) <==> Harmless(r, keys, q)
  {
    var es := EntriesOf(r, keys);
    var seen, own := SeenIn(es, q), ValuesOf(r, q);
    SeenSplits(es, q);
    OwnOfKeys(r, keys, q);
    EntriesOneLine(r, keys);
    SeenOneLine(es, q);
    ValuesOneLine(r, q);
    if own != [] && seen != own {
      JoinBreaks(seen);
      JoinBreaks(own);
    }
  }

  lemma {:induction false} KeyRestored(r: RequestData, keys: seq<Key>, q: Key)
    requires Formed(r) && IsOrder(keys)
    ensures Restores(Meant(r), q, Convert(Render(Fields(EntriesOf(r, keys))), Text(q), IsList(q)))
       <==> Harmless(r, keys, q)
  {
    EntriesOneLine(r, keys);
    RequestLookup(EntriesOf(r, keys), q, IsList(q));
    if IsList(q) {
      ListKey(r, keys, q);
    } else {
      SingleLookup(r, keys, q);
      if q.Command? || q.Lifetime? || q.TrustedCerts? {
        NumberKey(r, q, Foreign(EntriesOf(r, keys), q));
      } else {
        TextKey(r, q, Foreign(EntriesOf(r, keys), q));
      }
    }
  }

  /** Whatever the order of the fields, the server reads back exactly what is meant
      if and only if no value carries the text of another key in a way that changes its meaning. */
  lemma {:induction false} OrderedRoundTrip(r: RequestData, keys: seq<Key>)
    requires Formed(r) && IsOrder(keys)
    ensures Deserialize(Render(Fields(EntriesOf(r, keys)))) == Some(Meant(r)) <==> forall q :: Harmless(r, keys, q)
  {
    var data := Render(Fields(EntriesOf(r, keys)));
    var c := k => Convert(data, Text(k), IsList(k));
    forall q ensures Restores(Meant(r), q, c(q)) <==> Harmless(r, keys, q) {
      KeyRestored(r, keys, q);
    }
    if forall q :: Harmless(r, keys, q) {
      AssembleRestored(Meant(r), c);
    } else if Assemble(c) == Some(Meant(r)) {
      forall q ensures Restores(Meant(r), q, c(q)) { AssembleComplete(Meant(r), c, q); }
    }
  }

  lemma {:induction false} RequestRoundTrip(r: RequestData)
    requires Formed(r)
    ensures Serialize(r).Some?
    ensures Deserialize(Serialize(r).value) == Some(Meant(r)) <==> forall q :: Harmless(r, ORDER, q)
  {
    OrderIsOrder();
    OrderedRoundTrip(r, ORDER);
  }

  /** In particular it is read back when no value contains another key's text. */
  lemma {:induction false} CleanRequestRoundTrip(r: RequestData, keys: seq<Key>)
    requires Formed(r) && IsOrder(keys)
    requires forall i, q :: 0 <= i < |EntriesOf(r, keys)| && EntriesOf(r, keys)[i].key != q
               ==> !Contains(EntriesOf(r, keys)[i].value, Text(q))
    ensures Deserialize(Render(Fields(EntriesOf(r, keys)))) == Some(Meant(r))
  {
    forall q ensures Harmless(r, keys, q) { NoForeign(EntriesOf(r, keys), q); }
    OrderedRoundTrip(r, keys);
  }

  lemma {:induction false} NoForeign(es: seq<Entry>, q: Key)
    requires forall i :: 0 <= i < |es| && es[i].key != q ==> !Contains(es[i].value, Text(q))
    ensures Foreign(es, q) == []
  {
    if es != [] { NoForeign(es[1..], q); }
  }

  /** A value that spells out another key is read as that field too, and spoils the request. */
  lemma {:induction false} ForeignTextSpoils(r: RequestData, keys: seq<Key>, k: Key, v: string, q: Key)
    requires Formed(r) && IsOrder(keys) && k != q && q != NewPhrase && q != TrustedCerts
    requires v in ValuesOf(r, k) && Contains(v, Text(q))
    ensures Deserialize(Render(Fields(EntriesOf(r, keys)))) != Some(Meant(r))
  {
    OwnOfKeys(r, keys, k);
    var i := OwnMember(EntriesOf(r, keys), k, v);
    ForeignAt(EntriesOf(r, keys), q, i);
    OrderedRoundTrip(r, keys);
    assert !Harmless(r, keys, q);
  }

  lemma {:induction false} OwnMember(es: seq<Entry>, q: Key, v: string) returns (i: nat)
    requires v in Own(es, q)
    ensures i < |es| && es[i] == Entry(q, v)
  {
    if es[0] == Entry(q, v) {
      i := 0;
    } else {
      i := OwnMember(es[1..], q, v);
      i := i + 1;
    }
  }

  lemma {:induction false} ForeignAt(es: seq<Entry>, q: Key, i: nat)
    requires i < |es| && es[i].key != q && After(es[i].value, Text(q)).Some?
    ensures Foreign(es, q) != []
  {
    if i > 0 { ForeignAt(es[1..], q, i - 1); }
  }

  // ----- how values are cleaned -----

  lemma {:induction false} StripAppend(a: string, b: string)
    ensures Strip(a + b) == Strip(a) + Strip(b)
  {
    if a == "" {
      assert a + b == b;
    } else {
      var head := if a[0] == '\n' then "" else [a[0]];
      assert (a + b)[1..] == a[1..] + b;
      assert Strip(a + b) == head + Strip(a[1..] + b);
      StripAppend(a[1..], b);
      Associate(head, Strip(a[1..]), Strip(b));
    }
  }

  /** Cleaning drops every line break and keeps everything else in its order. */
  lemma {:induction false} StripExact(a: string, b: string)
    ensures Strip(a + "\n" + b) == Strip(a) + Strip(b)
    ensures OneLine(Strip(a)) && (OneLine(a) ==> Strip(a) == a)
  {
    StripClean(a);
    if OneLine(a) { StripOneLine(a); }
    StripAppend(a + "\n", b);
    StripAppend(a, "\n");
    StripBreak();
  }

  lemma StripBreak()
    ensures Strip("\n") == ""
  {
    assert "\n"[1..] == "";
  }

  predicate AllLines(lines: seq<string>) { forall i :: 0 <= i < |lines| ==> lines[i] != "" && OneLine(lines[i]) }

  /** A line in front, with any number of line breaks behind it. */
  lemma {:induction false} TokensCons(line: string, rest: string)
    requires line != "" && OneLine(line)
    ensures Tokens(line) == [line] && Tokens(line + "\n" + rest) == [line] + Tokens(rest)
    ensures Tokens("\n" + rest) == Tokens(rest)
  {
    var s := line + "\n" + rest;
    FirstLine(line, rest);
    assert s[0] == line[0] && s[..|line|] == line && s[|line|..] == "\n" + rest;
    assert ("\n" + rest)[1..] == rest;
    NoBreak(line, 0);
    assert line[..|line|] == line && line[|line|..] == "";
  }

  lemma {:induction false} NoBreak(s: string, p: nat)
    requires OneLine(s) && p <= |s|
    ensures LineEnd(s, p) == |s|
    decreases |s| - p
  {
    if p < |s| { NoBreak(s, p + 1); }
  }

  /** A list of non-empty lines is sent line by line as it is. */
  lemma {:induction false} TokensJoin(lines: seq<string>)
    requires AllLines(lines)
    ensures Tokens(Join(lines)) == lines
  {
    if |lines| == 1 {
      TokensCons(lines[0], "");
    } else if lines != [] {
      TokensCons(lines[0], Join(lines[1..]));
      TokensJoin(lines[1..]);
    }
  }

  // ----- the text on the wire -----

  function EachOf(key: string, o: Option<string>): string { if o.Some? then Each(key, Tokens(o.value)) else "" }

  /** The lines a request has for a key. */
  function Spelled(r: RequestData, k: Key): string {
    match k
    case Version => "VERSION=" + r.version + "\n"
    case Command => "COMMAND=" + FormatInt(r.command) + "\n"
    case Username => "USERNAME=" + r.username + "\n"
    case Passphrase => "PASSPHRASE=" + r.passphrase + "\n"
    case NewPhrase => if r.newPassphrase == "" then "" else "NEW_PHRASE=" + r.newPassphrase + "\n"
    case Lifetime => "LIFETIME=" + FormatInt(r.lifetime) + "\n"
    case Retriever => Optionally("RETRIEVER=", r.retrievers)
    case Renewer => Optionally("RENEWER=", r.renewers)
    case CredName => Optionally("CRED_NAME=", Cleaned(r.credname))
    case CredDesc => Optionally("CRED_DESC=", Cleaned(r.creddesc))
    case KeyRetrievers => Optionally("KEYRETRIEVERS=", r.keyretrieve)
    case RetrieverTrusted => Optionally("RETRIEVER_TRUSTED=", r.trustedRetrievers)
    case TrustedCerts => if r.wantTrustedCerts == 0 then "" else "TRUSTED_CERTS=1\n"
    case Voname => EachOf("VONAME=", r.voname)
    case Vomses => EachOf("VOMSES=", r.vomses)
  }

  function SpelledAll(r: RequestData, keys: seq<Key>): string {
    if keys == [] then "" else Spelled(r, keys[0]) + SpelledAll(r, keys[1..])
  }

  lemma RenderCons(e: Entry, es: seq<Entry>)
    ensures Render(Fields([e] + es)) == Text(e.key) + e.value + "\n" + Render(Fields(es))
  {
    assert ([e] + es)[1..] == es;
  }

  lemma {:induction false} RenderAppend(a: seq<Entry>, b: seq<Entry>)
    ensures Render(Fields(a + b)) == Render(Fields(a)) + Render(Fields(b))
  {
    if a == [] {
      assert a + b == b;
    } else {
      assert a == [a[0]] + a[1..] && a + b == [a[0]] + (a[1..] + b);
      RenderCons(a[0], a[1..]);
      RenderCons(a[0], a[1..] + b);
      RenderAppend(a[1..], b);
      Associate(Text(a[0].key) + a[0].value + "\n", Render(Fields(a[1..])), Render(Fields(b)));
    }
  }

  lemma {:induction false} RenderEach(k: Key, values: seq<string>)
    ensures Render(Fields(EntriesFor(k, values))) == Each(Text(k), values)
  {
    if values != [] {
      assert values == [values[0]] + values[1..];
      RenderStep(k, values[0], values[1..]);
      RenderEach(k, values[1..]);
    }
  }

  lemma {:induction false} EachOptional(key: string, o: Option<string>)
    ensures Each(key, OptionSeq(o)) == Optionally(key, o)
  {
    if o.Some? { EachOne(key, o.value); }
  }

  lemma {:induction false} KeySpelled(r: RequestData, k: Key)
    ensures Each(Text(k), ValuesOf(r, k)) == Spelled(r, k)
  {
    match k
    case Version => EachOne(Text(k), r.version);
    case Command => EachOne(Text(k), FormatInt(r.command));
    case Username => EachOne(Text(k), r.username);
    case Passphrase => EachOne(Text(k), r.passphrase);
    case NewPhrase => EachOne(Text(k), r.newPassphrase);
    case Lifetime => EachOne(Text(k), FormatInt(r.lifetime));
    case Retriever => EachOptional(Text(k), r.retrievers);
    case Renewer => EachOptional(Text(k), r.renewers);
    case CredName => EachOptional(Text(k), Cleaned(r.credname));
    case CredDesc => EachOptional(Text(k), Cleaned(r.creddesc));
    case KeyRetrievers => EachOptional(Text(k), r.keyretrieve);
    case RetrieverTrusted => EachOptional(Text(k), r.trustedRetrievers);
    case TrustedCerts => EachOne(Text(k), "1");
    case Voname =>
    case Vomses =>
  }

  /** The message is the lines of its fields, each with the key of the protocol. */
  lemma {:induction false} WireFormat(r: RequestData, keys: seq<Key>)
    ensures Render(Fields(EntriesOf(r, keys))) == SpelledAll(r, keys)
  {
    if keys != [] {
      var k := keys[0];
      RenderAppend(EntriesFor(k, ValuesOf(r, k)), EntriesOf(r, keys[1..]));
      RenderEach(k, ValuesOf(r, k));
      KeySpelled(r, k);
      WireFormat(r, keys[1..]);
    }
  }

  /** The eight commands of the protocol can be sent, and no other. */
  lemma CommandsExact(r: RequestData)
    ensures Serialize(r).Some? <==> r.command in {0, 1, 2, 3, 4, 5, 6, 7}
  {
  }
}
