/** Listing the stored credentials that satisfy a query (myproxy_creds.c). */
module Query {
  import opened Common
  import opened Datafile
  import opened Names
  import opened Repository

  /** A query leaves out what it does not ask for; zero times are not asked for. */
  datatype Query = Query(user: Option<string>, owner: Option<string>, cred: Option<string>, start: int, end: int)

  /** A credential as it is linked into the result, with the end of its validity. */
  datatype Found = Found(record: Record, lock: Option<string>, end: int)

  /** Naming, and the end time read from a credential's contents. */
  datatype Env = Env(naming: Naming, ends: string -> int)

  predicate Matches(q: Query, f: Found) {
    (q.user.Some? ==> f.record.username == q.user) &&
    (q.owner.Some? ==> f.record.owner == q.owner) &&
    (q.cred.Some? ==> if f.record.name.None? then q.cred.value == "" else f.record.name == q.cred) &&
    !(q.start != 0 && q.start > f.end) && !(q.end != 0 && q.end < f.end)
  }

  function FoundIn(e: Env, s: Slot, user: string): Option<Found> {
    match RetrieveFrom(s, user)
    case None => None
    case Some(r) => Some(Found(r.record, r.lock, if s.creds.Some? then e.ends(s.creds.value) else 0))
  }

  function Fetch(e: Env, files: Files, k: Key): Option<Found> {
    FoundIn(e, SlotOf(files, Stem(e.naming, k)), k.user)
  }

  /** The start of the file names of a user's credentials, as the query computes it. */
  function Prefix(n: Naming, user: string): string {
    Sterilize(if '/' in user then Digested(n, user) else user)
  }

  const DATA := ".data"

  predicate IsDataName(name: string) { |name| >= 5 && name[|name| - 5..] == DATA }

  /** What one directory entry contributes. */
  function Entry(e: Env, files: Files, q: Query, name: string): Option<Found> {
    if !IsDataName(name) || (q.user.Some? && !(Prefix(e.naming, q.user.value) <= name)) then None
    else
      match Fetch(e, files, StemKey(name[..|name| - 5]))
      case None => None
      case Some(f) => if (q.user.Some? && f.record.name.None?) || !Matches(q, f) then None else Some(f)
  }

  function Listed(o: Option<Found>): seq<Found> { if o.Some? then [o.value] else [] }

  function Entries(e: Env, files: Files, q: Query, dir: seq<string>): seq<Found> {
    if dir == [] then [] else Listed(Entry(e, files, q, dir[0])) + Entries(e, files, q, dir[1..])
  }

  /** The user's unnamed credential, unless the query asks for a name. */
  function Default(e: Env, files: Files, q: Query): Option<Found> {
    if q.user.None? || (q.cred.Some? && q.cred.value != "") then None
    else
      match Fetch(e, files, Key(Prefix(e.naming, q.user.value), None))
      case None => None
      case Some(f) => if Matches(q, f) then Some(f) else None
  }

  function Answer(e: Env, files: Files, q: Query, dir: seq<string>): seq<Found> {
    Listed(Default(e, files, q)) + Entries(e, files, q, dir)
  }

  lemma {:induction false} EntriesAppend(e: Env, files: Files, q: Query, a: seq<string>, name: string)
    ensures Entries(e, files, q, a + [name]) == Entries(e, files, q, a) + Listed(Entry(e, files, q, name))
  {
    if a == [] {
      assert a + [name] == [name] && [name][1..] == [];
    } else {
      assert (a + [name])[1..] == a[1..] + [name];
      EntriesAppend(e, files, q, a[1..], name);
    }
  }

  method FirstEntry(e: Env, files: Files, q: Query, prefix: string) returns (found: Option<Found>)
    requires q.user.Some? ==> prefix == Prefix(e.naming, q.user.value)
    ensures found == Default(e, files, q)
  {
    found := None;
    if q.user.Some? && (q.cred.None? || q.cred.value == "") {
      var f := Fetch(e, files, Key(prefix, None));
      if f.Some? && Matches(q, f.value) { found := f; }
    }
  }

  method ScanEntry(e: Env, files: Files, q: Query, prefix: string, name: string) returns (found: Option<Found>)
    requires q.user.Some? ==> prefix == Prefix(e.naming, q.user.value)
    ensures found == Entry(e, files, q, name)
  {
    found := None;
    if IsDataName(name) {
      if q.user.Some? && !(prefix <= name) { return; }
      var f := Fetch(e, files, StemKey(name[..|name| - 5]));
      if f.Some? {
        if q.user.Some? && f.value.record.name.None? { return; }
        if Matches(q, f.value) { found := f; }
      }
    }
  }

  lemma Extend(a: seq<Found>, b: seq<Found>, c: seq<Found>)
    ensures (a + b) + c == a + (b + c)
  {
  }

  /** Build the list entry by entry and count it. */
  method RetrieveAll(e: Env, files: Files, q: Query, dir: seq<string>) returns (list: seq<Found>, numcreds: nat)
    ensures list == Answer(e, files, q, dir) && numcreds == |list|
  {
    var prefix := if q.user.Some? then Prefix(e.naming, q.user.value) else "";
    var f := FirstEntry(e, files, q, prefix);
    ghost var first := Listed(f);
    list, numcreds := [], 0;
    if f.Some? { list, numcreds := [f.value], 1; }
    assert dir[..0] == [] && first + [] == list;
    for i := 0 to |dir|
      invariant list == first + Entries(e, files, q, dir[..i]) && numcreds == |list|
    {
      EntriesAppend(e, files, q, dir[..i], dir[i]);
      assert dir[..i + 1] == dir[..i] + [dir[i]];
      var next := ScanEntry(e, files, q, prefix, dir[i]);
      Extend(first, Entries(e, files, q, dir[..i]), Listed(next));
      if next.Some? { list, numcreds := list + [next.value], numcreds + 1; }
    }
    assert dir[..|dir|] == dir;
  }

  // ----- what is found is what is stored -----

  function Stored(e: Env, m: Model, k: Key): Found
    requires k in m.items
  {
    Found(m.items[k].record, LockTextOf(Lookup(m, k).lock), e.ends(m.items[k].credential))
  }

  /** The stored key whose files carry a stem, if any. */
  ghost function Holder(n: Naming, m: Model, stem: string): (r: Option<Key>)
    ensures r.Some? ==> r.value in m.items && Stem(n, r.value) == stem
    ensures r.None? ==> forall k :: k in m.items ==> Stem(n, k) != stem
  {
    if k :| k in m.items && Stem(n, k) == stem then Some(k) else None
  }

  lemma {:induction false} HolderOf(e: Env, files: Files, m: Model, keys: set<Key>, k: Key)
    requires Mirrors(e.naming, files, m, keys) && k in m.items
    ensures Holder(e.naming, m, Stem(e.naming, k)) == Some(k)
  {
    var j := Holder(e.naming, m, Stem(e.naming, k));
    assert j.Some? && j.value in keys && k in keys;
  }

  /** Fetching any key gives the credential stored under its stem. */
  lemma {:induction false} FetchStored(e: Env, files: Files, m: Model, keys: set<Key>, j: Key)
    requires Mirrors(e.naming, files, m, keys)
    ensures var h := Holder(e.naming, m, Stem(e.naming, j));
      Fetch(e, files, j) == if h.Some? then Some(Stored(e, m, h.value)) else None
  {
    var stem := Stem(e.naming, j);
    var h := Holder(e.naming, m, stem);
    if h.Some? {
      assert SlotOf(files, stem) == Lookup(m, h.value);
      DataRoundTrip(m.items[h.value].record, "");
      assert Print(m.items[h.value].record) + "" == Print(m.items[h.value].record);
    } else if Path(stem, Data) in files {
      var k := DataFileKey(e.naming, files, m, keys, stem);
    }
  }

  // ----- lists of keys -----

  /** The keys stand for stored credentials. */
  ghost predicate Known(m: Model, ks: seq<Key>) { forall i :: 0 <= i < |ks| ==> ks[i] in m.items }

  predicate NoRepeats<T(==)>(ks: seq<T>) {
    ks == [] || (ks[0] !in ks[1..] && NoRepeats(ks[1..]))
  }

  function AllStored(e: Env, m: Model, ks: seq<Key>): seq<Found>
    requires Known(m, ks)
  {
    if ks == [] then [] else [Stored(e, m, ks[0])] + AllStored(e, m, ks[1..])
  }

  lemma {:induction false} AllStoredAppend(e: Env, m: Model, a: seq<Key>, b: seq<Key>)
    requires Known(m, a) && Known(m, b)
    ensures AllStored(e, m, a + b) == AllStored(e, m, a) + AllStored(e, m, b)
  {
    if a == [] {
      assert a + b == b;
    } else {
      assert (a + b)[1..] == a[1..] + b;
      AllStoredAppend(e, m, a[1..], b);
    }
  }

  /** Different keys are told apart in a listing. */
  lemma {:induction false} AllStoredSame(e: Env, m: Model, a: seq<Key>, b: seq<Key>)
    requires Known(m, a) && Known(m, b) && AllStorable(m) && AllStored(e, m, a) == AllStored(e, m, b)
    ensures a == b
  {
    StoredLength(e, m, a);
    StoredLength(e, m, b);
    if a != [] {
      assert Stored(e, m, a[0]) == AllStored(e, m, a)[0] && Stored(e, m, b[0]) == AllStored(e, m, b)[0];
      assert KeyOf(m.items[a[0]].record) == a[0] && KeyOf(m.items[b[0]].record) == b[0];
      assert AllStored(e, m, a)[1..] == AllStored(e, m, a[1..]) && AllStored(e, m, b)[1..] == AllStored(e, m, b[1..]);
      AllStoredSame(e, m, a[1..], b[1..]);
      assert a == [a[0]] + a[1..] && b == [b[0]] + b[1..];
    }
  }

  lemma {:induction false} StoredLength(e: Env, m: Model, ks: seq<Key>)
    requires Known(m, ks)
    ensures |AllStored(e, m, ks)| == |ks|
  {
    if ks != [] { StoredLength(e, m, ks[1..]); }
  }

  // ----- what each file shows -----

  /** The file name of k starts as those of the user asked for should. */
  predicate Passes(n: Naming, q: Query, k: Key) {
    q.user.Some? ==> Prefix(n, q.user.value) <= Path(Stem(n, k), Data)
  }

  /** A stored credential the scan is to list: with a user given, defaults are not its business. */
  predicate Wanted(e: Env, m: Model, q: Query, k: Key)
    requires k in m.items
  {
    Matches(q, Stored(e, m, k)) && (q.user.Some? ==> k.cred.Some?)
  }

  /** What the data file of k makes the scan list: the credential stored where the taken-apart
      name leads. */
  ghost function Shown(e: Env, m: Model, q: Query, k: Key): seq<Key> {
    var h := Holder(e.naming, m, Redirect(e.naming, k));
    if Passes(e.naming, q, k) && h.Some? && Wanted(e, m, q, h.value) then [h.value] else []
  }

  ghost function AllShown(e: Env, m: Model, q: Query, ks: seq<Key>): seq<Key> {
    if ks == [] then [] else Shown(e, m, q, ks[0]) + AllShown(e, m, q, ks[1..])
  }

  lemma {:induction false} ShownKnown(e: Env, m: Model, q: Query, ks: seq<Key>)
    ensures Known(m, AllShown(e, m, q, ks))
  {
    if ks != [] { ShownKnown(e, m, q, ks[1..]); }
  }

  lemma {:induction false} DataPath(stem: string)
    ensures var p := Path(stem, Data); IsDataName(p) && p[..|p| - 5] == stem
  {
    var p := Path(stem, Data);
    assert p[|p| - 5..] == DATA && p[..|p| - 5] == stem;
  }

  /** What an entry becomes of a fetched credential. */
  function Sift(n: Naming, q: Query, name: string, f: Option<Found>): Option<Found> {
    if f.Some? && (q.user.Some? ==> Prefix(n, q.user.value) <= name && f.value.record.name.Some?) && Matches(q, f.value)
    then f else None
  }

  lemma {:induction false} EntryOf(e: Env, files: Files, q: Query, stem: string)
    ensures Entry(e, files, q, Path(stem, Data)) ==
      Sift(e.naming, q, Path(stem, Data), Fetch(e, files, StemKey(stem)))
  {
    DataPath(stem);
  }

  lemma {:induction false} SiftShown(e: Env, m: Model, q: Query, k: Key, f: Option<Found>)
    requires var h := Holder(e.naming, m, Redirect(e.naming, k));
      f == (if h.Some? then Some(Stored(e, m, h.value)) else None) &&
      (h.Some? ==> m.items[h.value].record.name == h.value.cred)
    ensures Known(m, Shown(e, m, q, k))
    ensures Listed(Sift(e.naming, q, Path(Stem(e.naming, k), Data), f)) == AllStored(e, m, Shown(e, m, q, k))
  {
  }

  lemma {:induction false} NamedAs(n: Naming, files: Files, m: Model, keys: set<Key>, k: Key)
    requires Mirrors(n, files, m, keys) && k in m.items
    ensures m.items[k].record.name == k.cred && m.items[k].record.username == Some(k.user)
  {
    assert KeyOf(m.items[k].record) == k;
  }

  lemma {:induction false} EntryShown(e: Env, files: Files, m: Model, keys: set<Key>, q: Query, k: Key)
    requires Mirrors(e.naming, files, m, keys) && k in m.items
    ensures Known(m, Shown(e, m, q, k))
    ensures Listed(Entry(e, files, q, Path(Stem(e.naming, k), Data))) == AllStored(e, m, Shown(e, m, q, k))
  {
    var stem := Stem(e.naming, k);
    FetchStored(e, files, m, keys, StemKey(stem));
    EntryOf(e, files, q, stem);
    var h := Holder(e.naming, m, Redirect(e.naming, k));
    if h.Some? { NamedAs(e.naming, files, m, keys, h.value); }
    SiftShown(e, m, q, k, Fetch(e, files, StemKey(stem)));
  }

  function PathsOf(n: Naming, ks: seq<Key>): seq<string> {
    if ks == [] then [] else [Path(Stem(n, ks[0]), Data)] + PathsOf(n, ks[1..])
  }

  lemma {:induction false} PathsStep(e: Env, files: Files, q: Query, ks: seq<Key>)
    requires ks != []
    ensures Entries(e, files, q, PathsOf(e.naming, ks)) ==
      Listed(Entry(e, files, q, Path(Stem(e.naming, ks[0]), Data))) + Entries(e, files, q, PathsOf(e.naming, ks[1..]))
  {
    assert PathsOf(e.naming, ks)[1..] == PathsOf(e.naming, ks[1..]);
  }

  lemma {:induction false} EntriesShown(e: Env, files: Files, m: Model, keys: set<Key>, q: Query, ks: seq<Key>)
    requires Mirrors(e.naming, files, m, keys) && Known(m, ks)
    ensures Known(m, AllShown(e, m, q, ks))
    ensures Entries(e, files, q, PathsOf(e.naming, ks)) == AllStored(e, m, AllShown(e, m, q, ks))
  {
    ShownKnown(e, m, q, ks);
    if ks != [] {
      ShownKnown(e, m, q, ks[1..]);
      EntriesShown(e, files, m, keys, q, ks[1..]);
      EntryShown(e, files, m, keys, q, ks[0]);
      PathsStep(e, files, q, ks);
      AllStoredAppend(e, m, Shown(e, m, q, ks[0]), AllShown(e, m, q, ks[1..]));
    }
  }

  // ----- the directory -----

  /** The entries of the directory, in any order: its data files, each once, and other names. */
  ghost predicate IsListing(files: Files, dir: seq<string>) {
    NoRepeats(dir) && forall p :: IsDataName(p) ==> (p in dir <==> p in files)
  }

  function DataNames(dir: seq<string>): seq<string> {
    if dir == [] then []
    else if IsDataName(dir[0]) then [dir[0]] + DataNames(dir[1..])
    else DataNames(dir[1..])
  }

  lemma {:induction false} DataNamesIn(dir: seq<string>, p: string)
    ensures p in DataNames(dir) <==> p in dir && IsDataName(p)
  {
    if dir != [] { DataNamesIn(dir[1..], p); }
  }

  lemma {:induction false} DataNamesOnce(dir: seq<string>)
    requires NoRepeats(dir)
    ensures NoRepeats(DataNames(dir))
  {
    if dir != [] {
      DataNamesOnce(dir[1..]);
      DataNamesIn(dir[1..], dir[0]);
      if IsDataName(dir[0]) { assert DataNames(dir)[1..] == DataNames(dir[1..]); }
    }
  }

  /** Only data files matter to a listing. */
  lemma {:induction false} EntriesOfData(e: Env, files: Files, q: Query, dir: seq<string>)
    ensures Entries(e, files, q, dir) == Entries(e, files, q, DataNames(dir))
  {
    if dir != [] {
      EntriesOfData(e, files, q, dir[1..]);
      if IsDataName(dir[0]) {
        assert DataNames(dir)[1..] == DataNames(dir[1..]);
      } else {
        assert Listed(Entry(e, files, q, dir[0])) == [];
      }
    }
  }

  lemma {:induction false} PathsIn(n: Naming, ks: seq<Key>, k: Key)
    requires k in ks
    ensures Path(Stem(n, k), Data) in PathsOf(n, ks)
  {
    if ks[0] != k { PathsIn(n, ks[1..], k); }
  }

  lemma DataStem(p: string)
    requires IsDataName(p)
    ensures p == Path(p[..|p| - 5], Data)
  {
    assert p == p[..|p| - 5] + p[|p| - 5..];
  }

  lemma {:induction false} NameKey(e: Env, files: Files, m: Model, keys: set<Key>, p: string) returns (k: Key)
    requires Mirrors(e.naming, files, m, keys) && IsDataName(p) && p in files
    ensures k in m.items && p == Path(Stem(e.naming, k), Data)
  {
    DataStem(p);
    k := DataFileKey(e.naming, files, m, keys, p[..|p| - 5]);
  }

  lemma {:induction false} PathsPush(n: Naming, m: Model, k: Key, ks: seq<Key>)
    requires k in m.items && Known(m, ks) && NoRepeats(ks) && Path(Stem(n, k), Data) !in PathsOf(n, ks)
    ensures PathsOf(n, [k] + ks) == [Path(Stem(n, k), Data)] + PathsOf(n, ks)
    ensures Known(m, [k] + ks) && NoRepeats([k] + ks)
  {
    assert ([k] + ks)[1..] == ks;
    if k in ks { PathsIn(n, ks, k); }
  }

  /** The stored keys in the order of their data files. */
  lemma {:induction false} KeysOfNames(e: Env, files: Files, m: Model, keys: set<Key>, names: seq<string>)
    returns (ks: seq<Key>)
    requires Mirrors(e.naming, files, m, keys) && NoRepeats(names)
    requires forall i :: 0 <= i < |names| ==> IsDataName(names[i]) && names[i] in files
    ensures names == PathsOf(e.naming, ks) && Known(m, ks) && NoRepeats(ks)
  {
    ks := [];
    if names != [] {
      var rest := KeysOfNames(e, files, m, keys, names[1..]);
      var k := NameKey(e, files, m, keys, names[0]);
      PathsPush(e.naming, m, k, rest);
      ks := [k] + rest;
    }
  }

  lemma {:induction false} PathsBack(n: Naming, m: Model, keys: set<Key>, ks: seq<Key>, k: Key)
    requires Separate(n, keys) && m.items.Keys <= keys && Known(m, ks) && k in m.items
    requires Path(Stem(n, k), Data) in PathsOf(n, ks)
    ensures k in ks
  {
    if Path(Stem(n, ks[0]), Data) == Path(Stem(n, k), Data) {
      PathsApart(Stem(n, ks[0]), Data, Stem(n, k), Data);
      assert ks[0] in m.items;
    } else {
      assert PathsOf(n, ks)[1..] == PathsOf(n, ks[1..]);
      PathsBack(n, m, keys, ks[1..], k);
    }
  }

  /** ks lists the stored keys, each once, in the order of the directory. */
  ghost predicate Lists(n: Naming, m: Model, dir: seq<string>, ks: seq<Key>) {
    DataNames(dir) == PathsOf(n, ks) && NoRepeats(ks) && Known(m, ks) && forall k :: k in m.items ==> k in ks
  }

  /** Any repeat-free enumeration of the files lists the stored keys. */
  lemma {:induction false} ListingKeys(e: Env, files: Files, m: Model, keys: set<Key>, dir: seq<string>)
    returns (ks: seq<Key>)
    requires Mirrors(e.naming, files, m, keys) && IsListing(files, dir)
    ensures Lists(e.naming, m, dir, ks)
  {
    var names := DataNames(dir);
    DataNamesOnce(dir);
    forall i | 0 <= i < |names| ensures IsDataName(names[i]) && names[i] in files {
      DataNamesIn(dir, names[i]);
    }
    ks := KeysOfNames(e, files, m, keys, names);
    forall k | k in m.items ensures k in ks {
      var p := Path(Stem(e.naming, k), Data);
      assert SlotOf(files, Stem(e.naming, k)) == Lookup(m, k);
      assert p[|p| - 5..] == DATA;
      DataNamesIn(dir, p);
      PathsBack(e.naming, m, keys, ks, k);
    }
  }

  // ----- the whole answer -----

  /** What is listed before the scan: the credential stored where the user's prefix leads. */
  ghost function First(e: Env, m: Model, q: Query): seq<Key> {
    if q.user.None? || (q.cred.Some? && q.cred.value != "") then []
    else
      var h := Holder(e.naming, m, Stem(e.naming, Key(Prefix(e.naming, q.user.value), None)));
      if h.Some? && Matches(q, Stored(e, m, h.value)) then [h.value] else []
  }

  lemma {:induction false} DefaultFirst(e: Env, files: Files, m: Model, keys: set<Key>, q: Query)
    requires Mirrors(e.naming, files, m, keys)
    ensures Known(m, First(e, m, q)) && Listed(Default(e, files, q)) == AllStored(e, m, First(e, m, q))
  {
    if q.user.Some? { FetchStored(e, files, m, keys, Key(Prefix(e.naming, q.user.value), None)); }
  }

  /** For every query and every repository: the answer is what the user's prefix leads to, then
      what each data file leads to, in directory order. */
  lemma {:induction false} AnswerExact(e: Env, files: Files, m: Model, keys: set<Key>, q: Query, dir: seq<string>,
                                       ks: seq<Key>)
    requires Mirrors(e.naming, files, m, keys) && Lists(e.naming, m, dir, ks)
    ensures Known(m, First(e, m, q) + AllShown(e, m, q, ks))
    ensures Answer(e, files, q, dir) == AllStored(e, m, First(e, m, q) + AllShown(e, m, q, ks))
  {
    DefaultFirst(e, files, m, keys, q);
    EntriesOfData(e, files, q, dir);
    EntriesShown(e, files, m, keys, q, ks);
    AllStoredAppend(e, m, First(e, m, q), AllShown(e, m, q, ks));
  }

  // ----- users the query can handle -----

  /** A user name within the limit, or one with a slash: its prefix is what its files start with. */
  predicate Manageable(n: Naming, user: string) { |user| <= n.limit || '/' in user }

  lemma {:induction false} PrefixSterile(n: Naming, user: string)
    ensures Manageable(n, user) ==> Prefix(n, user) == Sterile(n, user)
    ensures !Manageable(n, user) ==> Prefix(n, user) == Undot(user)
  {
    if '/' in user {
      DigestedShape(n, user);
      SterilizeNone(Digested(n, user));
    } else {
      SterilizeNone(user);
    }
  }

  lemma {:induction false} StemStarts(n: Naming, k: Key)
    ensures Sterile(n, k.user) <= Path(Stem(n, k), Data)
  {
  }

  /** Exactly when a user's own file passes the comparison of names: the name is manageable, or
      the file name, which starts with the digest, happens to start with the user's name. */
  lemma {:induction false} PassesExact(n: Naming, k: Key)
    ensures Prefix(n, k.user) <= Path(Stem(n, k), Data) <==>
      Manageable(n, k.user) || k.user <= Path(Stem(n, k), Data)
  {
    PrefixSterile(n, k.user);
    StemStarts(n, k);
    if !Manageable(n, k.user) {
      DigestedShape(n, k.user);
      assert Path(Stem(n, k), Data)[0] == Digested(n, k.user)[0];
      assert IsHex(Digested(n, k.user)[0]);
    }
  }

  /** The unnamed credential is looked up under the user's own stem. */
  predicate DefaultSeen(n: Naming, user: string) { Sterile(n, Prefix(n, user)) == Sterile(n, user) }

  /** Exactly when it is: for a name used as it is; for a name with a slash, with room for its
      digest; for a name that is too long, if a leading dot does not change the digest. */
  lemma {:induction false} DefaultSeenExact(n: Naming, user: string)
    ensures DefaultSeen(n, user) <==>
      if !Hashed(n, user) then true
      else if '/' in user then n.limit >= 32 || n.md5(Digested(n, user)) == n.md5(user)
      else n.md5(Undot(user)) == n.md5(user)
  {
    PrefixSterile(n, user);
    var p := Prefix(n, user);
    if !Hashed(n, user) {
      SterilizeNone(user);
      SterilizeNone(p);
    } else if '/' in user {
      DigestedShape(n, user);
      SteadyExact(n, p);
      SterileSame(n, p, user);
    } else {
      assert '/' !in p && |p| > n.limit;
      SterileSame(n, p, user);
    }
  }

  lemma {:induction false} DashInStem(n: Naming, k: Key)
    requires k.cred.Some?
    ensures '-' in Stem(n, k) && |Stem(n, k)| > |Sterile(n, k.user)|
  {
    assert Stem(n, k)[|Sterile(n, k.user)|] == '-';
  }

  lemma {:induction false} PrefixStem(n: Naming, user: string, k: Key)
    requires k.user == user && Stem(n, k) == Stem(n, Key(Prefix(n, user), None))
    ensures k.cred == None && DefaultSeen(n, user)
  {
    PrefixSterile(n, user);
    var p := Prefix(n, user);
    assert Stem(n, Key(p, None)) == Sterile(n, p) + "" == Sterile(n, p);
    if k.cred.Some? {
      DashInStem(n, k);
      if Manageable(n, user) { SterileLength(n, user); } else { DigestedShape(n, p); }
    } else {
      assert Stem(n, k) == Sterile(n, user) + "" == Sterile(n, user);
    }
  }

  /** Making a prefix sterile again does not make it longer, unless it is digested. */
  lemma {:induction false} SterileLength(n: Naming, user: string)
    requires Manageable(n, user)
    ensures |Sterile(n, Prefix(n, user))| <= |Sterile(n, user)|
  {
    PrefixSterile(n, user);
    SterileShape(n, user);
    SterileShape(n, Prefix(n, user));
    if '/' in user { DigestedShape(n, user); }
  }

  /** What comes first is the user's unnamed credential, and nothing else. */
  lemma {:induction false} FirstExact(e: Env, files: Files, m: Model, keys: set<Key>, q: Query)
    requires Mirrors(e.naming, files, m, keys)
    ensures First(e, m, q) ==
      if q.user.Some? && Key(q.user.value, None) in m.items && Matches(q, Stored(e, m, Key(q.user.value, None))) &&
         DefaultSeen(e.naming, q.user.value)
      then [Key(q.user.value, None)] else []
  {
    if q.user.Some? {
      var user := q.user.value;
      var k, p := Key(user, None), Key(Prefix(e.naming, user), None);
      var h := Holder(e.naming, m, Stem(e.naming, p));
      if h.Some? {
        NamedAs(e.naming, files, m, keys, h.value);
        if h.value.user == user { PrefixStem(e.naming, user, h.value); }
      }
      if k in m.items {
        NamedAs(e.naming, files, m, keys, k);
        HolderOf(e, files, m, keys, k);
      }
    }
  }

  // ----- when the answer is exact -----

  lemma {:induction false} ShownIn(e: Env, m: Model, q: Query, ks: seq<Key>, j: Key) returns (k: Key)
    requires j in AllShown(e, m, q, ks)
    ensures k in ks && Shown(e, m, q, k) == [j]
  {
    if j in Shown(e, m, q, ks[0]) { k := ks[0]; } else { k := ShownIn(e, m, q, ks[1..], j); }
  }

  lemma {:induction false} ShownOf(e: Env, m: Model, q: Query, ks: seq<Key>, k: Key, j: Key)
    requires k in ks && Shown(e, m, q, k) == [j]
    ensures j in AllShown(e, m, q, ks)
  {
    if ks[0] != k { ShownOf(e, m, q, ks[1..], k, j); }
  }

  lemma {:induction false} NoRepeatsTail<T>(a: seq<T>, b: seq<T>)
    requires NoRepeats(a + b)
    ensures NoRepeats(b)
  {
    if a == [] {
      assert a + b == b;
    } else {
      assert (a + b)[1..] == a[1..] + b;
      NoRepeatsTail(a[1..], b);
    }
  }

  /** Two files that show the same credential make it appear twice. */
  lemma {:induction false} ShownTwice(e: Env, m: Model, q: Query, ks: seq<Key>, a: Key, b: Key, j: Key)
    requires a in ks && b in ks && a != b && Shown(e, m, q, a) == [j] && Shown(e, m, q, b) == [j]
    ensures !NoRepeats(AllShown(e, m, q, ks))
  {
    var rest := AllShown(e, m, q, ks[1..]);
    if ks[0] == a {
      ShownOf(e, m, q, ks[1..], b, j);
      assert ([j] + rest)[1..] == rest;
    } else if ks[0] == b {
      ShownOf(e, m, q, ks[1..], a, j);
      assert ([j] + rest)[1..] == rest;
    } else {
      ShownTwice(e, m, q, ks[1..], a, b, j);
      if NoRepeats(AllShown(e, m, q, ks)) { NoRepeatsTail(Shown(e, m, q, ks[0]), rest); }
    }
  }

  /** A query the scan can answer: no user is asked for, or one whose files start as expected. */
  predicate Askable(n: Naming, q: Query) {
    n.limit >= 32 && (q.user.Some? ==> Manageable(n, q.user.value))
  }

  /** Every credential that is to be listed is reached, and no file that is not reached leads to one. */
  ghost predicate Clear(e: Env, m: Model, q: Query) {
    (forall k :: k in m.items && Wanted(e, m, q, k) ==> Reached(e.naming, k)) &&
    (forall k :: k in m.items && !Reached(e.naming, k) ==> Shown(e, m, q, k) == [])
  }

  /** The listed keys are the stored ones that match, each once. */
  ghost predicate Exact(e: Env, m: Model, q: Query, chosen: seq<Key>) {
    NoRepeats(chosen) && forall k :: k in m.items ==> (k in chosen <==> Matches(q, Stored(e, m, k)))
  }

  lemma {:induction false} WantedPasses(e: Env, files: Files, m: Model, keys: set<Key>, q: Query, k: Key)
    requires Mirrors(e.naming, files, m, keys) && Askable(e.naming, q) && k in m.items && Wanted(e, m, q, k)
    ensures Passes(e.naming, q, k)
  {
    NamedAs(e.naming, files, m, keys, k);
    PassesExact(e.naming, k);
  }

  /** For every query and every limit: a credential is listed from its own file exactly when it is to
      be listed, its file is reached, and for a user asked for the comparison of names passes. */
  lemma {:induction false} ShownOwn(e: Env, files: Files, m: Model, keys: set<Key>, q: Query, k: Key)
    requires Mirrors(e.naming, files, m, keys) && k in m.items
    ensures k in Shown(e, m, q, k) <==>
      Wanted(e, m, q, k) && Reached(e.naming, k) &&
      (q.user.Some? ==> Manageable(e.naming, k.user) || k.user <= Path(Stem(e.naming, k), Data))
  {
    HolderOf(e, files, m, keys, k);
    NamedAs(e.naming, files, m, keys, k);
    PassesExact(e.naming, k);
  }

  /** A reached file shows its own credential. */
  lemma {:induction false} ShownReached(e: Env, files: Files, m: Model, keys: set<Key>, q: Query, k: Key)
    requires Mirrors(e.naming, files, m, keys) && Askable(e.naming, q) && k in m.items && Reached(e.naming, k)
    ensures Shown(e, m, q, k) == if Wanted(e, m, q, k) then [k] else []
  {
    HolderOf(e, files, m, keys, k);
    if Wanted(e, m, q, k) { WantedPasses(e, files, m, keys, q, k); }
  }

  lemma {:induction false} ShownClear(e: Env, files: Files, m: Model, keys: set<Key>, q: Query, k: Key)
    requires Mirrors(e.naming, files, m, keys) && Askable(e.naming, q) && Clear(e, m, q) && k in m.items
    ensures Shown(e, m, q, k) == if Wanted(e, m, q, k) then [k] else []
  {
    if Reached(e.naming, k) { ShownReached(e, files, m, keys, q, k); }
  }

  /** The keys whose credentials are to be listed. */
  function Sieve(e: Env, m: Model, q: Query, ks: seq<Key>): seq<Key>
    requires Known(m, ks)
  {
    if ks == [] then []
    else
      var rest := Sieve(e, m, q, ks[1..]);
      if Wanted(e, m, q, ks[0]) then [ks[0]] + rest else rest
  }

  lemma {:induction false} SieveIn(e: Env, m: Model, q: Query, ks: seq<Key>, k: Key)
    requires Known(m, ks)
    ensures k in Sieve(e, m, q, ks) <==> k in ks && Wanted(e, m, q, k)
  {
    if ks != [] { SieveIn(e, m, q, ks[1..], k); }
  }

  lemma {:induction false} SieveOnce(e: Env, m: Model, q: Query, ks: seq<Key>)
    requires Known(m, ks) && NoRepeats(ks)
    ensures NoRepeats(Sieve(e, m, q, ks))
  {
    if ks != [] {
      SieveOnce(e, m, q, ks[1..]);
      SieveIn(e, m, q, ks[1..], ks[0]);
      var rest := Sieve(e, m, q, ks[1..]);
      assert ([ks[0]] + rest)[1..] == rest;
    }
  }

  lemma {:induction false} ClearShown(e: Env, files: Files, m: Model, keys: set<Key>, q: Query, ks: seq<Key>)
    requires Mirrors(e.naming, files, m, keys) && Askable(e.naming, q) && Clear(e, m, q) && Known(m, ks)
    ensures AllShown(e, m, q, ks) == Sieve(e, m, q, ks)
  {
    if ks != [] {
      ClearShown(e, files, m, keys, q, ks[1..]);
      ShownClear(e, files, m, keys, q, ks[0]);
    }
  }

  lemma {:induction false} AskableDefault(n: Naming, user: string)
    requires n.limit >= 32 && Manageable(n, user)
    ensures DefaultSeen(n, user)
  {
    DefaultSeenExact(n, user);
  }

  /** If the query is clear its answer is exact. */
  lemma {:induction false} ClearExact(e: Env, files: Files, m: Model, keys: set<Key>, q: Query, ks: seq<Key>)
    requires Mirrors(e.naming, files, m, keys) && Askable(e.naming, q) && Clear(e, m, q)
    requires Known(m, ks) && NoRepeats(ks) && forall k :: k in m.items ==> k in ks
    ensures Exact(e, m, q, First(e, m, q) + AllShown(e, m, q, ks))
  {
    ClearShown(e, files, m, keys, q, ks);
    SieveOnce(e, m, q, ks);
    FirstExact(e, files, m, keys, q);
    if q.user.Some? { AskableDefault(e.naming, q.user.value); }
    var first, rest := First(e, m, q), AllShown(e, m, q, ks);
    if first == [] {
      assert first + rest == rest;
    } else {
      SieveIn(e, m, q, ks, first[0]);
      assert (first + rest)[1..] == rest;
    }
    forall k | k in m.items ensures k in first + rest <==> Matches(q, Stored(e, m, k)) {
      SieveIn(e, m, q, ks, k);
      NamedAs(e.naming, files, m, keys, k);
    }
  }

  lemma {:induction false} WantedReached(e: Env, files: Files, m: Model, keys: set<Key>, q: Query, ks: seq<Key>, k: Key)
    requires Mirrors(e.naming, files, m, keys) && Askable(e.naming, q) && k in m.items && Wanted(e, m, q, k)
    requires k in First(e, m, q) + AllShown(e, m, q, ks)
    ensures Reached(e.naming, k)
  {
    FirstExact(e, files, m, keys, q);
    var j := ShownIn(e, m, q, ks, k);
    RedirectReached(e.naming, j, k);
  }

  /** An exact answer leaves no file that leads astray. */
  lemma {:induction false} ExactUnled(e: Env, files: Files, m: Model, keys: set<Key>, q: Query, ks: seq<Key>, k: Key)
    requires Mirrors(e.naming, files, m, keys) && Askable(e.naming, q) && Known(m, ks)
    requires (forall k :: k in m.items ==> k in ks) && NoRepeats(First(e, m, q) + AllShown(e, m, q, ks))
    requires k in m.items && !Reached(e.naming, k)
    ensures Shown(e, m, q, k) == []
  {
    if Shown(e, m, q, k) != [] {
      var j := Shown(e, m, q, k)[0];
      RedirectReached(e.naming, k, j);
      ShownReached(e, files, m, keys, q, j);
      ShownTwice(e, m, q, ks, k, j, j);
      NoRepeatsTail(First(e, m, q), AllShown(e, m, q, ks));
    }
  }

  /** The answer to a query is exactly the stored credentials that match, each once, if and only
      if the query is clear. */
  lemma {:induction false} QueryExact(e: Env, files: Files, m: Model, keys: set<Key>, q: Query, ks: seq<Key>)
    requires Mirrors(e.naming, files, m, keys) && Askable(e.naming, q)
    requires Known(m, ks) && NoRepeats(ks) && forall k :: k in m.items ==> k in ks
    ensures Exact(e, m, q, First(e, m, q) + AllShown(e, m, q, ks)) <==> Clear(e, m, q)
  {
    if Clear(e, m, q) {
      ClearExact(e, files, m, keys, q, ks);
    }
    if Exact(e, m, q, First(e, m, q) + AllShown(e, m, q, ks)) {
      forall k | k in m.items && Wanted(e, m, q, k) ensures Reached(e.naming, k) {
        WantedReached(e, files, m, keys, q, ks, k);
      }
      forall k | k in m.items && !Reached(e.naming, k) ensures Shown(e, m, q, k) == [] {
        ExactUnled(e, files, m, keys, q, ks, k);
      }
    }
  }

  // ----- every limit and every user -----

  /** The unnamed credential, if it matches, is looked up. */
  ghost predicate SoundDefault(e: Env, m: Model, q: Query) {
    q.user.Some? && Key(q.user.value, None) in m.items && Matches(q, Stored(e, m, Key(q.user.value, None))) ==>
      DefaultSeen(e.naming, q.user.value)
  }

  ghost predicate ShownSomewhere(e: Env, m: Model, q: Query, k: Key) {
    exists j :: j in m.items && Shown(e, m, q, j) == [k]
  }

  /** Every other credential to be listed is shown by some file. */
  ghost predicate SoundShown(e: Env, m: Model, q: Query) {
    forall k :: k in m.items && Wanted(e, m, q, k) ==> ShownSomewhere(e, m, q, k)
  }

  /** No two files show the same credential. */
  ghost predicate SoundOnce(e: Env, m: Model, q: Query) {
    forall a, b :: a in m.items && b in m.items && a != b && Shown(e, m, q, a) == Shown(e, m, q, b) ==>
      Shown(e, m, q, a) == []
  }

  ghost predicate Sound(e: Env, m: Model, q: Query) {
    SoundDefault(e, m, q) && SoundShown(e, m, q) && SoundOnce(e, m, q)
  }

  lemma {:induction false} ShownOnce(e: Env, m: Model, q: Query, ks: seq<Key>)
    requires SoundOnce(e, m, q) && Known(m, ks) && NoRepeats(ks)
    ensures NoRepeats(AllShown(e, m, q, ks))
  {
    if ks != [] {
      ShownOnce(e, m, q, ks[1..]);
      var rest := AllShown(e, m, q, ks[1..]);
      if Shown(e, m, q, ks[0]) == [] {
        assert [] + rest == rest;
      } else {
        var j := Shown(e, m, q, ks[0])[0];
        assert ([j] + rest)[1..] == rest;
        NotShownAgain(e, m, q, ks, j);
      }
    }
  }

  lemma {:induction false} NotShownAgain(e: Env, m: Model, q: Query, ks: seq<Key>, j: Key)
    requires SoundOnce(e, m, q) && Known(m, ks) && ks != [] && NoRepeats(ks) && Shown(e, m, q, ks[0]) == [j]
    ensures j !in AllShown(e, m, q, ks[1..])
  {
    assert ks[0] in m.items && Known(m, ks[1..]);
    if j in AllShown(e, m, q, ks[1..]) {
      var k := ShownIn(e, m, q, ks[1..], j);
    }
  }

  lemma {:induction false} ShownMember(e: Env, m: Model, q: Query, ks: seq<Key>, k: Key)
    requires SoundShown(e, m, q) && (forall j :: j in m.items ==> j in ks) && k in m.items
    ensures k in AllShown(e, m, q, ks) <==> Wanted(e, m, q, k)
  {
    if k in AllShown(e, m, q, ks) {
      var j := ShownIn(e, m, q, ks, k);
    }
    if Wanted(e, m, q, k) {
      assert ShownSomewhere(e, m, q, k);
      var j :| j in m.items && Shown(e, m, q, j) == [k];
      ShownOf(e, m, q, ks, j, k);
    }
  }

  lemma {:induction false} SoundMember(e: Env, files: Files, m: Model, keys: set<Key>, q: Query, ks: seq<Key>, k: Key)
    requires Mirrors(e.naming, files, m, keys) && Sound(e, m, q) && k in m.items && forall j :: j in m.items ==> j in ks
    ensures k in First(e, m, q) + AllShown(e, m, q, ks) <==> Matches(q, Stored(e, m, k))
  {
    FirstExact(e, files, m, keys, q);
    NamedAs(e.naming, files, m, keys, k);
    ShownMember(e, m, q, ks, k);
  }

  lemma {:induction false} SoundExact(e: Env, files: Files, m: Model, keys: set<Key>, q: Query, ks: seq<Key>)
    requires Mirrors(e.naming, files, m, keys) && Sound(e, m, q)
    requires Known(m, ks) && NoRepeats(ks) && forall k :: k in m.items ==> k in ks
    ensures Exact(e, m, q, First(e, m, q) + AllShown(e, m, q, ks))
  {
    ShownOnce(e, m, q, ks);
    FirstExact(e, files, m, keys, q);
    var first, rest := First(e, m, q), AllShown(e, m, q, ks);
    if first == [] {
      assert first + rest == rest;
    } else {
      assert (first + rest)[1..] == rest;
      DefaultNotShown(e, m, q, ks, first[0]);
    }
    forall k | k in m.items ensures k in first + rest <==> Matches(q, Stored(e, m, k)) {
      SoundMember(e, files, m, keys, q, ks, k);
    }
  }

  /** With a user given the scan lists named credentials only. */
  lemma {:induction false} DefaultNotShown(e: Env, m: Model, q: Query, ks: seq<Key>, k: Key)
    requires q.user.Some? && k.cred == None
    ensures k !in AllShown(e, m, q, ks)
  {
    if k in AllShown(e, m, q, ks) {
      var j := ShownIn(e, m, q, ks, k);
    }
  }

  lemma {:induction false} ExactDefault(e: Env, files: Files, m: Model, keys: set<Key>, q: Query, ks: seq<Key>)
    requires Mirrors(e.naming, files, m, keys) && Exact(e, m, q, First(e, m, q) + AllShown(e, m, q, ks))
    ensures SoundDefault(e, m, q)
  {
    FirstExact(e, files, m, keys, q);
    if q.user.Some? { DefaultNotShown(e, m, q, ks, Key(q.user.value, None)); }
  }

  lemma {:induction false} ExactShown(e: Env, files: Files, m: Model, keys: set<Key>, q: Query, ks: seq<Key>, k: Key)
    requires Mirrors(e.naming, files, m, keys) && Known(m, ks) && k in m.items && Wanted(e, m, q, k)
    requires k in First(e, m, q) + AllShown(e, m, q, ks)
    ensures ShownSomewhere(e, m, q, k)
  {
    FirstExact(e, files, m, keys, q);
    var j := ShownIn(e, m, q, ks, k);
    assert j in m.items && Shown(e, m, q, j) == [k];
  }

  lemma {:induction false} ExactOnce(e: Env, m: Model, q: Query, ks: seq<Key>)
    requires NoRepeats(First(e, m, q) + AllShown(e, m, q, ks)) && forall k :: k in m.items ==> k in ks
    ensures SoundOnce(e, m, q)
  {
    NoRepeatsTail(First(e, m, q), AllShown(e, m, q, ks));
    forall a, b | a in m.items && b in m.items && a != b && Shown(e, m, q, a) == Shown(e, m, q, b)
      ensures Shown(e, m, q, a) == []
    {
      if Shown(e, m, q, a) != [] { ShownTwice(e, m, q, ks, a, b, Shown(e, m, q, a)[0]); }
    }
  }

  lemma {:induction false} ExactSound(e: Env, files: Files, m: Model, keys: set<Key>, q: Query, ks: seq<Key>)
    requires Mirrors(e.naming, files, m, keys) && Exact(e, m, q, First(e, m, q) + AllShown(e, m, q, ks))
    requires Known(m, ks) && forall k :: k in m.items ==> k in ks
    ensures Sound(e, m, q)
  {
    ExactDefault(e, files, m, keys, q, ks);
    ExactOnce(e, m, q, ks);
    forall k | k in m.items && Wanted(e, m, q, k) ensures ShownSomewhere(e, m, q, k) {
      ExactShown(e, files, m, keys, q, ks, k);
    }
  }

  /** For every limit and every user: the answer is exactly the stored credentials that match, each
      once, if and only if each of them is shown by exactly one file. */
  lemma {:induction false} QueryExactAlways(e: Env, files: Files, m: Model, keys: set<Key>, q: Query, ks: seq<Key>)
    requires Mirrors(e.naming, files, m, keys) && Known(m, ks) && NoRepeats(ks) && forall k :: k in m.items ==> k in ks
    ensures Exact(e, m, q, First(e, m, q) + AllShown(e, m, q, ks)) <==> Sound(e, m, q)
  {
    if Sound(e, m, q) { SoundExact(e, files, m, keys, q, ks); }
    if Exact(e, m, q, First(e, m, q) + AllShown(e, m, q, ks)) { ExactSound(e, files, m, keys, q, ks); }
  }

  /** After any run from an empty repository, with the files enumerated in any order: what the
      answer to any query is, and exactly when it is what was asked for. */
  lemma {:induction false} QueryAfterRun(e: Env, keys: set<Key>, ops: seq<Op>, q: Query, dir: seq<string>)
    returns (ks: seq<Key>, chosen: seq<Key>)
    requires Separate(e.naming, keys) && AllUse(ops, keys) && forall i :: 0 <= i < |ops| ==> OpStorable(ops[i])
    requires IsListing(Run(e.naming, map[], ops), dir)
    ensures var files, m := Run(e.naming, map[], ops), RunModel(Model(map[], map[]), ops);
      Lists(e.naming, m, dir, ks) && chosen == First(e, m, q) + AllShown(e, m, q, ks) && Known(m, chosen) &&
      Answer(e, files, q, dir) == AllStored(e, m, chosen) &&
      (Exact(e, m, q, chosen) <==> Sound(e, m, q)) &&
      (Askable(e.naming, q) ==> (Exact(e, m, q, chosen) <==> Clear(e, m, q)))
  {
    var files, m := Run(e.naming, map[], ops), RunModel(Model(map[], map[]), ops);
    RunMirrors(e.naming, keys, ops);
    ks := ListingKeys(e, files, m, keys, dir);
    AnswerExact(e, files, m, keys, q, dir, ks);
    chosen := First(e, m, q) + AllShown(e, m, q, ks);
    QueryExactAlways(e, files, m, keys, q, ks);
    if Askable(e.naming, q) { QueryExact(e, files, m, keys, q, ks); }
  }

  // ----- particular queries -----

  lemma SomeMember(ks: seq<Key>)
    ensures ks == [] || ks[0] in ks
  {
  }

  lemma {:induction false} OneKey(ks: seq<Key>, k: Key)
    requires NoRepeats(ks) && forall j :: j in ks ==> j == k
    ensures ks == if k in ks then [k] else []
  {
    if ks != [] {
      var rest := ks[1..];
      assert ks[0] in ks && forall j :: j in rest ==> j in ks;
      SomeMember(rest);
    }
  }

  function Single(e: Env, m: Model, k: Key): seq<Key> { if k in m.items then [k] else [] }

  function ByName(user: string, cred: string): Query { Query(Some(user), None, Some(cred), 0, 0) }

  lemma {:induction false} NamedMatches(e: Env, files: Files, m: Model, keys: set<Key>, user: string, cred: string,
                                        j: Key)
    requires Mirrors(e.naming, files, m, keys) && cred != "" && j in m.items
    ensures Matches(ByName(user, cred), Stored(e, m, j)) <==> j == Key(user, Some(cred))
  {
    NamedAs(e.naming, files, m, keys, j);
  }

  /** If one key is all that matches, an exact answer is that key. */
  lemma {:induction false} ExactSingle(e: Env, m: Model, q: Query, k: Key, chosen: seq<Key>)
    requires Known(m, chosen) && forall j :: j in m.items ==> (Matches(q, Stored(e, m, j)) <==> j == k)
    ensures Exact(e, m, q, chosen) <==> chosen == Single(e, m, k)
  {
    if Exact(e, m, q, chosen) {
      assert forall j :: j in chosen ==> j == k;
      OneKey(chosen, k);
    }
    assert [k][1..] == [];
    assert NoRepeats(Single(e, m, k));
  }

  lemma {:induction false} AnswerIs(e: Env, files: Files, m: Model, keys: set<Key>, q: Query, dir: seq<string>,
                                    ks: seq<Key>, want: seq<Key>)
    requires Mirrors(e.naming, files, m, keys) && Lists(e.naming, m, dir, ks) && Known(m, want)
    ensures Known(m, First(e, m, q) + AllShown(e, m, q, ks))
    ensures Answer(e, files, q, dir) == AllStored(e, m, want) <==> First(e, m, q) + AllShown(e, m, q, ks) == want
  {
    AnswerExact(e, files, m, keys, q, dir, ks);
    if Answer(e, files, q, dir) == AllStored(e, m, want) {
      AllStoredSame(e, m, First(e, m, q) + AllShown(e, m, q, ks), want);
    }
  }

  /** Asking for a user's credential by name gives that credential and no other, or nothing if
      there is none, exactly when the files are sound for the query. */
  lemma {:induction false} NamedQuery(e: Env, files: Files, m: Model, keys: set<Key>, user: string, cred: string,
                                      dir: seq<string>)
    requires Mirrors(e.naming, files, m, keys) && IsListing(files, dir) && cred != ""
    ensures Answer(e, files, ByName(user, cred), dir) == AllStored(e, m, Single(e, m, Key(user, Some(cred)))) <==>
      Sound(e, m, ByName(user, cred))
  {
    var q, k := ByName(user, cred), Key(user, Some(cred));
    var ks := ListingKeys(e, files, m, keys, dir);
    AnswerIs(e, files, m, keys, q, dir, ks, Single(e, m, k));
    QueryExactAlways(e, files, m, keys, q, ks);
    forall j | j in m.items ensures Matches(q, Stored(e, m, j)) <==> j == k {
      NamedMatches(e, files, m, keys, user, cred, j);
    }
    ExactSingle(e, m, q, k, First(e, m, q) + AllShown(e, m, q, ks));
  }

  /** Asking for an expiry between two times gives exactly the credentials that expire then, both
      ends included, exactly when the files are sound for the query. */
  lemma {:induction false} ExpiryQuery(e: Env, files: Files, m: Model, keys: set<Key>, start: int, end: int,
                                       dir: seq<string>)
    returns (chosen: seq<Key>)
    requires Mirrors(e.naming, files, m, keys) && IsListing(files, dir) && 0 < start && 0 < end
    ensures var q := Query(None, None, None, start, end);
      Known(m, chosen) && Answer(e, files, q, dir) == AllStored(e, m, chosen) &&
      (Sound(e, m, q) <==>
        NoRepeats(chosen) && forall k :: k in m.items ==> (k in chosen <==> start <= Stored(e, m, k).end <= end))
  {
    var q := Query(None, None, None, start, end);
    var ks := ListingKeys(e, files, m, keys, dir);
    AnswerExact(e, files, m, keys, q, dir, ks);
    QueryExactAlways(e, files, m, keys, q, ks);
    chosen := First(e, m, q) + AllShown(e, m, q, ks);
    forall k | k in m.items ensures Matches(q, Stored(e, m, k)) <==> start <= Stored(e, m, k).end <= end { }
  }

  /** What a query asks of a stored credential, clause by clause. */
  predicate Asked(e: Env, m: Model, q: Query, k: Key)
    requires k in m.items
  {
    && (q.user.None? || k.user == q.user.value)
    && (q.owner.None? || m.items[k].record.owner == q.owner)
    && (q.cred.None? || (if q.cred.value == "" then k.cred == None || k.cred == Some("") else k.cred == q.cred))
    && (q.start == 0 || q.start <= e.ends(m.items[k].credential))
    && (q.end == 0 || e.ends(m.items[k].credential) <= q.end)
  }

  lemma {:induction false} MatchesAsked(e: Env, files: Files, m: Model, keys: set<Key>, q: Query, k: Key)
    requires Mirrors(e.naming, files, m, keys) && k in m.items
    ensures Matches(q, Stored(e, m, k)) <==> Asked(e, m, q, k)
  {
    NamedAs(e.naming, files, m, keys, k);
  }

  /** Any query gives exactly the credentials that meet all its clauses, each once, exactly when the
      files are sound for the query. */
  lemma {:induction false} QueryAsks(e: Env, files: Files, m: Model, keys: set<Key>, q: Query, dir: seq<string>)
    returns (chosen: seq<Key>)
    requires Mirrors(e.naming, files, m, keys) && IsListing(files, dir)
    ensures Known(m, chosen) && Answer(e, files, q, dir) == AllStored(e, m, chosen)
    ensures Sound(e, m, q) <==> NoRepeats(chosen) && forall k :: k in m.items ==> (k in chosen <==> Asked(e, m, q, k))
  {
    var ks := ListingKeys(e, files, m, keys, dir);
    AnswerExact(e, files, m, keys, q, dir, ks);
    QueryExactAlways(e, files, m, keys, q, ks);
    chosen := First(e, m, q) + AllShown(e, m, q, ks);
    forall k | k in m.items ensures Matches(q, Stored(e, m, k)) <==> Asked(e, m, q, k) {
      MatchesAsked(e, files, m, keys, q, k);
    }
  }

  /** Asking for a user and an owner gives exactly that user's credentials with that owner. */
  lemma {:induction false} OwnerQuery(e: Env, files: Files, m: Model, keys: set<Key>, user: string, owner: string,
                                      dir: seq<string>)
    returns (chosen: seq<Key>)
    requires Mirrors(e.naming, files, m, keys) && IsListing(files, dir)
    ensures var q := Query(Some(user), Some(owner), None, 0, 0);
      Known(m, chosen) && Answer(e, files, q, dir) == AllStored(e, m, chosen) &&
      (Sound(e, m, q) <==>
        NoRepeats(chosen) &&
        forall k :: k in m.items ==> (k in chosen <==> k.user == user && m.items[k].record.owner == Some(owner)))
  {
    chosen := QueryAsks(e, files, m, keys, Query(Some(user), Some(owner), None, 0, 0), dir);
  }

  const EVERYTHING := Query(None, None, None, 0, 0)

  lemma {:induction false} TwoListed(n: Naming, m: Model, dir: seq<string>, ks: seq<Key>, a: Key, b: Key)
    requires Lists(n, m, dir, ks) && a != b && m.items.Keys == {a, b}
    ensures ks == [a, b] || ks == [b, a]
  {
    assert a in m.items && b in m.items;
    TwoKeys(ks, a, b);
  }

  /** Two files of which one leads to the other. */
  lemma {:induction false} TwoFiles(e: Env, files: Files, m: Model, keys: set<Key>, q: Query, dir: seq<string>,
                                    a: Key, b: Key)
    requires Mirrors(e.naming, files, m, keys) && IsListing(files, dir) && a != b && m.items.Keys == {a, b}
    requires q.user == None && Shown(e, m, q, a) == [b] && Shown(e, m, q, b) == [b]
    ensures Known(m, [b, b]) && Answer(e, files, q, dir) == AllStored(e, m, [b, b])
  {
    var ks := ListingKeys(e, files, m, keys, dir);
    TwoListed(e.naming, m, dir, ks, a, b);
    BothShown(e, m, q, ks, a, b);
    AnswerExact(e, files, m, keys, q, dir, ks);
  }

  /** With a user "a-.b" and a credential "-b" of user "a" stored, a listing of everything shows
      the latter twice and the former never. */
  lemma {:induction false} ListedTwice(e: Env, files: Files, m: Model, keys: set<Key>, dir: seq<string>)
    requires Mirrors(e.naming, files, m, keys) && IsListing(files, dir) && e.naming.limit >= 32
    requires m.items.Keys == {Key("a-.b", None), Key("a", Some("-b"))}
    ensures Answer(e, files, EVERYTHING, dir) == AllStored(e, m, [Key("a", Some("-b")), Key("a", Some("-b"))])
  {
    LedAstray(e, files, m, keys);
    TwoFiles(e, files, m, keys, EVERYTHING, dir, Key("a-.b", None), Key("a", Some("-b")));
  }

  lemma {:induction false} LedAstray(e: Env, files: Files, m: Model, keys: set<Key>)
    requires Mirrors(e.naming, files, m, keys) && e.naming.limit >= 32 && Key("a", Some("-b")) in m.items
    ensures Shown(e, m, EVERYTHING, Key("a-.b", None)) == [Key("a", Some("-b"))]
    ensures Shown(e, m, EVERYTHING, Key("a", Some("-b"))) == [Key("a", Some("-b"))]
  {
    var b := Key("a", Some("-b"));
    DottedNotReached(e.naming);
    SterilizeNone("a");
    DashFreeReached(e.naming, b);
    HolderOf(e, files, m, keys, b);
  }

  lemma {:induction false} TwoKeys(ks: seq<Key>, a: Key, b: Key)
    requires NoRepeats(ks) && a != b && a in ks && b in ks && forall k :: k in ks ==> k == a || k == b
    ensures ks == [a, b] || ks == [b, a]
  {
    var rest := ks[1..];
    assert ks == [ks[0]] + rest && ks[0] in ks && forall k :: k in rest ==> k in ks;
    OneKey(rest, if ks[0] == a then b else a);
  }

  lemma {:induction false} PairShown(e: Env, m: Model, q: Query, x: Key, y: Key)
    ensures AllShown(e, m, q, [x, y]) == Shown(e, m, q, x) + Shown(e, m, q, y)
  {
    assert [x, y][1..] == [y] && [y][1..] == [];
    assert AllShown(e, m, q, [y]) == Shown(e, m, q, y) + AllShown(e, m, q, []);
  }

  lemma {:induction false} BothShown(e: Env, m: Model, q: Query, ks: seq<Key>, a: Key, b: Key)
    requires q.user == None && Shown(e, m, q, a) == [b] && Shown(e, m, q, b) == [b]
    requires ks == [a, b] || ks == [b, a]
    ensures First(e, m, q) + AllShown(e, m, q, ks) == [b, b]
  {
    PairShown(e, m, q, ks[0], ks[1]);
    assert ks == [ks[0], ks[1]];
  }

  // ----- users with over-long names -----

  /** The first part of a stem is no longer than the user's sterile name. */
  lemma {:induction false} FirstPart(n: Naming, k: Key)
    ensures |StemKey(Stem(n, k)).user| <= |Sterile(n, k.user)|
  {
    var t, s := StemKey(Stem(n, k)), SterileKey(n, k);
    StemKeyJoins(Stem(n, k));
    if |s.user| < |t.user| {
      JoinedOverlap(s, t);
      if Overlap(s, t) { OverlapDash(s, t); }
    }
  }

  /** A file that passes for an over-long user and leads to one of the user's named credentials
      starts with the user's digest and a dash, and so does the user's name. */
  lemma {:induction false} LedToLongUser(n: Naming, user: string, k: Key, j: Key)
    requires n.limit >= 32 && !Manageable(n, user) && Prefix(n, user) <= Path(Stem(n, k), Data)
    requires j.user == user && j.cred.Some? && Stem(n, j) == Redirect(n, k)
    ensures Digested(n, user) + "-" <= user
  {
    var t, d, p := StemKey(Stem(n, k)), Digested(n, user), Path(Stem(n, k), Data);
    PrefixSterile(n, user);
    DigestedShape(n, user);
    StemClean(n, k);
    StemKeyJoins(Stem(n, k));
    PartsClean(t, Stem(n, k));
    FirstPart(n, k);
    SterileSteady(n, k.user);
    SteadyExact(n, t.user);
    assert Sterile(n, t.user) == t.user;
    SameJoined(SterileKey(n, t), SterileKey(n, j));
    assert t.user == d && t.cred.Some?;
    assert d + "-" <= p;
    CommonPrefix(d + "-", Undot(user), p);
    assert Undot(user)[0] == d[0] && IsHex(d[0]);
  }

  lemma CommonPrefix(a: string, b: string, c: string)
    requires a <= c && b <= c && |a| <= |b|
    ensures a <= b
  {
    assert forall i :: 0 <= i < |a| ==> a[i] == c[i] && b[i] == c[i];
  }

  lemma {:induction false} NothingShown(e: Env, m: Model, q: Query, ks: seq<Key>)
    requires forall i :: 0 <= i < |ks| ==> Shown(e, m, q, ks[i]) == []
    ensures AllShown(e, m, q, ks) == []
  {
    if ks != [] {
      assert Shown(e, m, q, ks[0]) == [];
      NothingShown(e, m, q, ks[1..]);
    }
  }

  /** A user name beyond the limit that does not start with its own digest and a dash: whatever is
      stored, none of the user's named credentials is ever listed for that user, only the
      unnamed one. */
  lemma {:induction false} LongUserNotListed(e: Env, files: Files, m: Model, keys: set<Key>, q: Query, dir: seq<string>)
    requires Mirrors(e.naming, files, m, keys) && IsListing(files, dir) && e.naming.limit >= 32
    requires q.user.Some? && !Manageable(e.naming, q.user.value)
    requires !(Digested(e.naming, q.user.value) + "-" <= q.user.value)
    ensures Known(m, First(e, m, q)) && Answer(e, files, q, dir) == AllStored(e, m, First(e, m, q))
  {
    var ks := ListingKeys(e, files, m, keys, dir);
    AnswerExact(e, files, m, keys, q, dir, ks);
    forall i | 0 <= i < |ks| ensures Shown(e, m, q, ks[i]) == [] {
      var h := Holder(e.naming, m, Redirect(e.naming, ks[i]));
      if h.Some? {
        NamedAs(e.naming, files, m, keys, h.value);
        if Passes(e.naming, q, ks[i]) && Wanted(e, m, q, h.value) {
          LedToLongUser(e.naming, q.user.value, ks[i], h.value);
        }
      }
    }
    NothingShown(e, m, q, ks);
    assert First(e, m, q) + [] == First(e, m, q);
  }
}
