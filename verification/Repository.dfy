/** The credential repository: three files per credential (myproxy_creds.c). */
module Repository {
  import opened Common
  import opened Datafile
  import opened Names

  // ----- files -----

  datatype Kind = Creds | Data | Lock

  function Suffix(kind: Kind): string {
    match kind
    case Creds => ".creds"
    case Data => ".data"
    case Lock => ".lock"
  }

  function Path(stem: string, kind: Kind): string { stem + Suffix(kind) }

  /** Different stems or different kinds never share a file. */
  lemma PathsApart(a: string, x: Kind, b: string, y: Kind)
    requires Path(a, x) == Path(b, y)
    ensures a == b && x == y
  {
    var p := Path(a, x);
    assert p[|p| - 1] == Suffix(x)[|Suffix(x)| - 1] && p[|p| - 1] == Suffix(y)[|Suffix(y)| - 1];
    assert x == y;
    assert p[..|p| - |Suffix(x)|] == a && p[..|p| - |Suffix(y)|] == b;
  }

  // ----- the three files of one stem -----

  type Files = map<string, string>

  function At(files: Files, path: string): Option<string> {
    if path in files then Some(files[path]) else None
  }

  datatype Slot = Slot(data: Option<string>, creds: Option<string>, lock: Option<string>)

  function SlotOf(files: Files, stem: string): Slot {
    Slot(At(files, Path(stem, Data)), At(files, Path(stem, Creds)), At(files, Path(stem, Lock)))
  }

  function Put(files: Files, path: string, content: Option<string>): Files {
    if content.Some? then files[path := content.value] else files - {path}
  }

  function PutSlot(files: Files, stem: string, slot: Slot): Files {
    Put(Put(Put(files, Path(stem, Data), slot.data), Path(stem, Creds), slot.creds), Path(stem, Lock), slot.lock)
  }

  /** Writing a slot changes that slot and no other. */
  lemma {:induction false} PutSlotOnly(files: Files, stem: string, slot: Slot, other: string)
    ensures SlotOf(PutSlot(files, stem, slot), other) == if other == stem then slot else SlotOf(files, other)
  {
    if Path(stem, Data) == Path(stem, Creds) { PathsApart(stem, Data, stem, Creds); }
    if Path(stem, Data) == Path(stem, Lock) { PathsApart(stem, Data, stem, Lock); }
    if Path(stem, Creds) == Path(stem, Lock) { PathsApart(stem, Creds, stem, Lock); }
    if other != stem {
      forall x: Kind, y: Kind ensures Path(stem, x) != Path(other, y) {
        if Path(stem, x) == Path(other, y) { PathsApart(stem, x, other, y); }
      }
    }
  }

  // ----- operations -----

  /** What a client hands over: the record, the credential's contents and an administrative lock. */
  datatype Deposit = Deposit(record: Record, credential: Option<string>, lock: Option<string>)

  predicate Complete(d: Deposit) { d.record.username.Some? && d.record.owner.Some? && d.credential.Some? }

  function KeyOf(r: Record): Key
    requires r.username.Some?
  {
    Key(r.username.value, r.name)
  }

  datatype Op = Store(d: Deposit) | Delete(k: Key) | SetLock(k: Key, reason: string) | Unlock(k: Key)

  predicate HasKey(op: Op) { op.Store? ==> Complete(op.d) }

  function OpKey(op: Op): Key
    requires HasKey(op)
  {
    match op
    case Store(d) => KeyOf(d.record)
    case Delete(k) => k
    case SetLock(k, _) => k
    case Unlock(k) => k
  }

  /** What an operation makes of its own slot. Deleting without a data file changes nothing;
      without a credential file it stops half way. */
  function NewSlot(s: Slot, op: Op): Slot {
    match op
    case Store(d) => Slot(Some(Print(d.record)), d.credential, d.lock)
    case Delete(_) => if s.data.None? then s else if s.creds.None? then s.(data := None) else Slot(None, None, None)
    case SetLock(_, reason) => s.(lock := Some(reason))
    case Unlock(_) => s.(lock := None)
  }

  /** The files after an operation; an incomplete deposit is refused. */
  function Apply(n: Naming, files: Files, op: Op): Files {
    if !HasKey(op) then files
    else var stem := Stem(n, OpKey(op)); PutSlot(files, stem, NewSlot(SlotOf(files, stem), op))
  }

  function Succeeds(n: Naming, files: Files, op: Op): bool {
    HasKey(op) && (op.Delete? ==> var s := SlotOf(files, Stem(n, op.k)); s.data.Some? && s.creds.Some?)
  }

  /** Every operation changes only the slot of its own stem. */
  lemma {:induction false} ApplyOnly(n: Naming, files: Files, op: Op, other: string)
    ensures SlotOf(Apply(n, files, op), other) ==
      if HasKey(op) && other == Stem(n, OpKey(op)) then NewSlot(SlotOf(files, other), op) else SlotOf(files, other)
  {
    if HasKey(op) {
      var stem := Stem(n, OpKey(op));
      PutSlotOnly(files, stem, NewSlot(SlotOf(files, stem), op), other);
    }
  }

  // ----- queries about one key -----

  /** Only the first line of a lock file is read, with its line end. */
  function LockText(s: string): string {
    match Split(s, '\n')
    case None => s
    case Some((line, _)) => line + "\n"
  }

  function LockTextOf(o: Option<string>): Option<string> { if o.Some? then Some(LockText(o.value)) else None }

  datatype Retrieved = Retrieved(record: Record, lock: Option<string>)

  function ExistsIn(s: Slot): bool { s.creds.Some? && s.data.Some? }

  function RetrieveFrom(s: Slot, user: string): Option<Retrieved> {
    if s.data.None? then None
    else
      match Parse(s.data.value, BLANK)
      case None => None
      case Some(r) => Some(Retrieved(if r.username.None? then r.(username := Some(user)) else r, LockTextOf(s.lock)))
  }

  /** Whether the client owns the credential; unknown without a readable data file. */
  function OwnerIs(s: Slot, client: string): Option<bool> {
    if s.data.None? then None
    else
      match Parse(s.data.value, BLANK)
      case None => None
      case Some(r) => Some(r.owner == Some(client))
  }

  /** A credential exists exactly when both its files do. */
  lemma ExistExact(files: Files, stem: string)
    ensures ExistsIn(SlotOf(files, stem)) <==> stem + ".creds" in files && stem + ".data" in files
  {
  }

  /** Whatever was there before, a deleted credential neither exists nor can be retrieved. */
  lemma {:induction false} DeletedIsGone(n: Naming, files: Files, k: Key, user: string)
    ensures var s := SlotOf(Apply(n, files, Delete(k)), Stem(n, k));
      !ExistsIn(s) && RetrieveFrom(s, user) == None && OwnerIs(s, user) == None
    ensures Succeeds(n, files, Delete(k)) <==> ExistsIn(SlotOf(files, Stem(n, k)))
    ensures Succeeds(n, files, Delete(k)) ==> SlotOf(Apply(n, files, Delete(k)), Stem(n, k)).lock == None
  {
    ApplyOnly(n, files, Delete(k), Stem(n, k));
  }

  /** A data file that names no user, as older ones do, is given the user it was asked for with. */
  lemma {:induction false} UnnamedUser(r: Record, creds: Option<string>, lock: Option<string>, user: string)
    requires Storable(r)
    ensures var got := RetrieveFrom(Slot(Some(Print(r)), creds, lock), user);
      got.Some? && got.value.record == r.(username := if r.username.Some? then r.username else Some(user))
  {
    DataRoundTrip(r, "");
    assert Print(r) + "" == Print(r);
  }

  // ----- the repository as a map -----

  datatype Item = Item(record: Record, credential: string)

  /** Credentials and administrative locks by key; a lock needs no credential. */
  datatype Model = Model(items: map<Key, Item>, locks: map<Key, string>)

  function Lookup(m: Model, k: Key): Slot {
    Slot(if k in m.items then Some(Print(m.items[k].record)) else None,
         if k in m.items then Some(m.items[k].credential) else None,
         if k in m.locks then Some(m.locks[k]) else None)
  }

  function ApplyModel(m: Model, op: Op): Model {
    if !HasKey(op) then m
    else
      var k := OpKey(op);
      match op
      case Store(d) =>
        Model(m.items[k := Item(d.record, d.credential.value)],
              if d.lock.Some? then m.locks[k := d.lock.value] else m.locks - {k})
      case Delete(_) => if k in m.items then Model(m.items - {k}, m.locks - {k}) else m
      case SetLock(_, reason) => m.(locks := m.locks[k := reason])
      case Unlock(_) => m.(locks := m.locks - {k})
  }

  /** The keys in use have stems of their own. */
  ghost predicate Separate(n: Naming, keys: set<Key>) {
    forall j, k :: j in keys && k in keys && Stem(n, j) == Stem(n, k) ==> j == k
  }

  ghost predicate Agrees(n: Naming, files: Files, m: Model, keys: set<Key>) {
    forall k :: k in keys ==> SlotOf(files, Stem(n, k)) == Lookup(m, k)
  }

  predicate Uses(op: Op, keys: set<Key>) { HasKey(op) ==> OpKey(op) in keys }

  lemma {:induction false} ModelSlot(m: Model, op: Op, k: Key)
    requires HasKey(op)
    ensures Lookup(ApplyModel(m, op), k) == if k == OpKey(op) then NewSlot(Lookup(m, k), op) else Lookup(m, k)
  {
  }

  lemma {:induction false} StepAgrees(n: Naming, files: Files, m: Model, keys: set<Key>, op: Op)
    requires Separate(n, keys) && Agrees(n, files, m, keys) && Uses(op, keys)
    ensures Agrees(n, Apply(n, files, op), ApplyModel(m, op), keys)
    ensures op.Delete? ==> (Succeeds(n, files, op) <==> op.k in m.items)
  {
    if HasKey(op) {
      forall k | k in keys ensures SlotOf(Apply(n, files, op), Stem(n, k)) == Lookup(ApplyModel(m, op), k) {
        ApplyOnly(n, files, op, Stem(n, k));
        ModelSlot(m, op, k);
      }
    }
  }

  function Run(n: Naming, files: Files, ops: seq<Op>): Files
    decreases |ops|
  {
    if ops == [] then files else Run(n, Apply(n, files, ops[0]), ops[1..])
  }

  function RunModel(m: Model, ops: seq<Op>): Model
    decreases |ops|
  {
    if ops == [] then m else RunModel(ApplyModel(m, ops[0]), ops[1..])
  }

  predicate AllUse(ops: seq<Op>, keys: set<Key>) { forall i :: 0 <= i < |ops| ==> Uses(ops[i], keys) }

  /** Over keys with stems of their own, any run of operations keeps the files and the map in step. */
  lemma {:induction false} RunAgrees(n: Naming, files: Files, m: Model, keys: set<Key>, ops: seq<Op>)
    requires Separate(n, keys) && Agrees(n, files, m, keys) && AllUse(ops, keys)
    ensures Agrees(n, Run(n, files, ops), RunModel(m, ops), keys)
    decreases |ops|
  {
    if ops != [] {
      assert Uses(ops[0], keys);
      StepAgrees(n, files, m, keys, ops[0]);
      RunAgrees(n, Apply(n, files, ops[0]), ApplyModel(m, ops[0]), keys, ops[1..]);
    }
  }

  ghost predicate AllStorable(m: Model) {
    forall k :: k in m.items ==>
      var r := m.items[k].record; Storable(r) && r.username.Some? && KeyOf(r) == k
  }

  predicate OpStorable(op: Op) { HasKey(op) && op.Store? ==> Storable(op.d.record) }

  lemma {:induction false} RunStorable(m: Model, ops: seq<Op>)
    requires AllStorable(m) && forall i :: 0 <= i < |ops| ==> OpStorable(ops[i])
    ensures AllStorable(RunModel(m, ops))
    decreases |ops|
  {
    if ops != [] {
      assert OpStorable(ops[0]);
      RunStorable(ApplyModel(m, ops[0]), ops[1..]);
    }
  }

  /** After any run from an empty repository, existence, retrieval and ownership answer from the
      map: the record last stored under the key, in every field. */
  lemma {:induction false} BehavesAsMap(n: Naming, keys: set<Key>, ops: seq<Op>, k: Key, client: string)
    requires Separate(n, keys) && AllUse(ops, keys) && (forall i :: 0 <= i < |ops| ==> OpStorable(ops[i])) && k in keys
    ensures var s, m := SlotOf(Run(n, map[], ops), Stem(n, k)), RunModel(Model(map[], map[]), ops);
      (ExistsIn(s) <==> k in m.items) &&
      RetrieveFrom(s, k.user) ==
        (if k in m.items then Some(Retrieved(m.items[k].record, LockTextOf(Lookup(m, k).lock))) else None) &&
      OwnerIs(s, client) == (if k in m.items then Some(m.items[k].record.owner == Some(client)) else None)
  {
    var empty := Model(map[], map[]);
    RunAgrees(n, map[], empty, keys, ops);
    RunStorable(empty, ops);
    var m := RunModel(empty, ops);
    if k in m.items {
      DataRoundTrip(m.items[k].record, "");
      assert Print(m.items[k].record) + "" == Print(m.items[k].record);
    }
  }

  lemma {:induction false} LockTextExact(reason: string)
    ensures '\n' !in reason ==> LockText(reason) == reason
    ensures forall a, b :: '\n' !in a && reason == a + "\n" + b ==> LockText(reason) == a + "\n"
  {
    if '\n' !in reason { SplitNone(reason, '\n'); }
    forall a, b | '\n' !in a && reason == a + "\n" + b ensures LockText(reason) == a + "\n" {
      assert reason == a + ['\n'] + b;
      SplitAt(a, '\n', b);
    }
  }

  /** A lock's reason comes back with the credential, a one-line reason as it is and a longer one up
      to and including its first line break; unlocking takes it away. */
  lemma {:induction false} LockComesBack(n: Naming, files: Files, k: Key, reason: string, user: string)
    requires RetrieveFrom(SlotOf(files, Stem(n, k)), user).Some?
    ensures var r := RetrieveFrom(SlotOf(Apply(n, files, SetLock(k, reason)), Stem(n, k)), user);
      && r.Some? && r.value.record == RetrieveFrom(SlotOf(files, Stem(n, k)), user).value.record
      && ('\n' !in reason ==> r.value.lock == Some(reason))
      && (forall a, b :: '\n' !in a && reason == a + "\n" + b ==> r.value.lock == Some(a + "\n"))
    ensures var r := RetrieveFrom(SlotOf(Apply(n, files, Unlock(k)), Stem(n, k)), user);
      r.Some? && r.value == RetrieveFrom(SlotOf(files, Stem(n, k)), user).value.(lock := None)
  {
    ApplyOnly(n, files, SetLock(k, reason), Stem(n, k));
    ApplyOnly(n, files, Unlock(k), Stem(n, k));
    LockTextExact(reason);
  }

  // ----- the files are the map's and no others -----

  ghost predicate IsPathOf(n: Naming, p: string, keys: set<Key>) {
    exists k, kind :: k in keys && p == Path(Stem(n, k), kind)
  }

  ghost predicate Owned(n: Naming, files: Files, keys: set<Key>) {
    forall p :: p in files ==> IsPathOf(n, p, keys)
  }

  lemma {:induction false} ApplyOwned(n: Naming, files: Files, keys: set<Key>, op: Op)
    requires Owned(n, files, keys) && Uses(op, keys)
    ensures Owned(n, Apply(n, files, op), keys)
  {
    if HasKey(op) {
      var k := OpKey(op);
      forall p | p in Apply(n, files, op) ensures IsPathOf(n, p, keys) {
        if p !in files {
          assert p == Path(Stem(n, k), Data) || p == Path(Stem(n, k), Creds) || p == Path(Stem(n, k), Lock);
        }
      }
    }
  }

  lemma {:induction false} RunOwned(n: Naming, files: Files, keys: set<Key>, ops: seq<Op>)
    requires Owned(n, files, keys) && AllUse(ops, keys)
    ensures Owned(n, Run(n, files, ops), keys)
    decreases |ops|
  {
    if ops != [] {
      assert Uses(ops[0], keys);
      ApplyOwned(n, files, keys, ops[0]);
      RunOwned(n, Apply(n, files, ops[0]), keys, ops[1..]);
    }
  }

  lemma {:induction false} RunItems(m: Model, keys: set<Key>, ops: seq<Op>)
    requires m.items.Keys <= keys && AllUse(ops, keys)
    ensures RunModel(m, ops).items.Keys <= keys
    decreases |ops|
  {
    if ops != [] {
      assert Uses(ops[0], keys);
      RunItems(ApplyModel(m, ops[0]), keys, ops[1..]);
    }
  }

  /** The files are exactly what the map says of the keys in use. */
  ghost predicate Mirrors(n: Naming, files: Files, m: Model, keys: set<Key>) {
    Separate(n, keys) && Agrees(n, files, m, keys) && Owned(n, files, keys) && m.items.Keys <= keys && AllStorable(m)
  }

  /** So they are after every run from an empty repository. */
  lemma {:induction false} RunMirrors(n: Naming, keys: set<Key>, ops: seq<Op>)
    requires Separate(n, keys) && AllUse(ops, keys) && forall i :: 0 <= i < |ops| ==> OpStorable(ops[i])
    ensures Mirrors(n, Run(n, map[], ops), RunModel(Model(map[], map[]), ops), keys)
  {
    var empty := Model(map[], map[]);
    RunAgrees(n, map[], empty, keys, ops);
    RunOwned(n, map[], keys, ops);
    RunItems(empty, keys, ops);
    RunStorable(empty, ops);
  }

  /** A data file belongs to a stored key. */
  lemma {:induction false} DataFileKey(n: Naming, files: Files, m: Model, keys: set<Key>, stem: string) returns (k: Key)
    requires Mirrors(n, files, m, keys) && Path(stem, Data) in files
    ensures k in m.items && Stem(n, k) == stem
  {
    var j, kind :| j in keys && Path(stem, Data) == Path(Stem(n, j), kind);
    PathsApart(stem, Data, Stem(n, j), kind);
    assert SlotOf(files, stem) == Lookup(m, j);
    k := j;
  }

  // ----- the directory, changed file by file -----

  /** The storage directory. File operations succeed; the credential's own file is given by its contents. */
  class Directory {
    const naming: Naming
    var files: Files

    constructor (naming: Naming)
      ensures this.naming == naming && files == map[]
    {
      this.naming := naming;
      files := map[];
    }

    method Store(d: Deposit) returns (ok: bool)
      modifies this
      ensures files == Apply(naming, old(files), Op.Store(d)) && ok == Succeeds(naming, old(files), Op.Store(d))
    {
      if d.record.username.None? || d.record.owner.None? || d.credential.None? { return false; }
      var stem := Stem(naming, KeyOf(d.record));
      files := files[Path(stem, Data) := Print(d.record)];
      files := files[Path(stem, Creds) := d.credential.value];
      if d.lock.Some? {
        files := files[Path(stem, Lock) := d.lock.value];
      } else {
        files := files - {Path(stem, Lock)};
      }
      ok := true;
    }

    method Delete(k: Key) returns (ok: bool)
      modifies this
      ensures files == Apply(naming, old(files), Op.Delete(k)) && ok == Succeeds(naming, old(files), Op.Delete(k))
    {
      var stem := Stem(naming, k);
      ghost var slot := SlotOf(files, stem);
      StemFiles(stem);
      if Path(stem, Data) !in files {
        PutSame(files, stem);
        return false;
      }
      files := files - {Path(stem, Data)};
      if Path(stem, Creds) !in files {
        PutSame(files, stem);
        return false;
      }
      files := files - {Path(stem, Creds)};
      files := files - {Path(stem, Lock)};
      ok := true;
    }

    method SetLock(k: Key, reason: string)
      modifies this
      ensures files == Apply(naming, old(files), Op.SetLock(k, reason))
    {
      var stem := Stem(naming, k);
      StemFiles(stem);
      PutSame(files, stem);
      files := files[Path(stem, Lock) := reason];
    }

    method Unlock(k: Key)
      modifies this
      ensures files == Apply(naming, old(files), Op.Unlock(k))
    {
      var stem := Stem(naming, k);
      StemFiles(stem);
      PutSame(files, stem);
      files := files - {Path(stem, Lock)};
    }

    method Exist(k: Key) returns (rc: bool)
      ensures rc == ExistsIn(SlotOf(files, Stem(naming, k)))
    {
      var stem := Stem(naming, k);
      rc := Path(stem, Creds) in files;
      if !rc { return; }
      rc := Path(stem, Data) in files;
    }

    method Retrieve(k: Key) returns (ok: bool, record: Record, lock: Option<string>)
      ensures match RetrieveFrom(SlotOf(files, Stem(naming, k)), k.user)
        case None => !ok
        case Some(r) => ok && record == r.record && lock == r.lock
    {
      var stem := Stem(naming, k);
      record, lock := BLANK, None;
      if Path(stem, Data) !in files { return false, record, lock; }
      var stream := new DataStream(files[Path(stem, Data)]);
      ok, record := stream.ReadDataFile();
      if !ok { return; }
      if Path(stem, Lock) in files { lock := Some(LockText(files[Path(stem, Lock)])); }
      if record.username.None? { record := record.(username := Some(k.user)); }
    }

    /** 1 for the owner, 0 for someone else, -1 without a readable data file. */
    method IsOwner(k: Key, client: string) returns (code: int)
      ensures match OwnerIs(SlotOf(files, Stem(naming, k)), client)
        case None => code == -1
        case Some(b) => code == if b then 1 else 0
    {
      var stem := Stem(naming, k);
      if Path(stem, Data) !in files { return -1; }
      var stream := new DataStream(files[Path(stem, Data)]);
      var ok, record := stream.ReadDataFile();
      if !ok { return -1; }
      code := if record.owner == Some(client) then 1 else 0;
    }
  }

  lemma StemFiles(stem: string)
    ensures Path(stem, Data) != Path(stem, Creds) && Path(stem, Data) != Path(stem, Lock) &&
            Path(stem, Creds) != Path(stem, Lock)
  {
    if Path(stem, Data) == Path(stem, Creds) { PathsApart(stem, Data, stem, Creds); }
    if Path(stem, Data) == Path(stem, Lock) { PathsApart(stem, Data, stem, Lock); }
    if Path(stem, Creds) == Path(stem, Lock) { PathsApart(stem, Creds, stem, Lock); }
  }

  /** Writing back what is there changes nothing. */
  lemma PutSame(files: Files, stem: string)
    ensures forall kind :: Put(files, Path(stem, kind), At(files, Path(stem, kind))) == files
  {
  }
}
