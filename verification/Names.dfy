/** How the repository names files after users and credentials (myproxy_creds.c, string_funcs.c). */
module Names {
  import opened Common

  // ----- digests -----

  /** The sixteen bytes of a digest. */
  type Digest = d: seq<nat> | |d| == 16 && AllBytes(d) witness seq(16, i => 0)

  predicate AllBytes(bs: seq<nat>) { forall i :: 0 <= i < |bs| ==> bs[i] < 256 }

  /** The digest function and the longest name that is used as it is. */
  datatype Naming = Naming(md5: string -> Digest, limit: nat)

  function HexDigit(d: nat): char
    requires d < 16
  {
    if d < 10 then ('0' as int + d) as char else ('a' as int + d - 10) as char
  }

  predicate IsHex(c: char) { '0' <= c <= '9' || 'a' <= c <= 'f' }

  function HexText(bs: seq<nat>): string
    requires AllBytes(bs)
  {
    if bs == [] then "" else [HexDigit(bs[0] / 16), HexDigit(bs[0] % 16)] + HexText(bs[1..])
  }

  predicate AllHex(s: string) { forall i :: 0 <= i < |s| ==> IsHex(s[i]) }

  lemma {:induction false} HexTextShape(bs: seq<nat>)
    requires AllBytes(bs)
    ensures |HexText(bs)| == 2 * |bs| && AllHex(HexText(bs))
  {
    if bs != [] { HexTextShape(bs[1..]); }
  }

  lemma {:induction false} HexTextAt(bs: seq<nat>, i: nat)
    requires AllBytes(bs) && i < |bs|
    ensures |HexText(bs)| == 2 * |bs|
    ensures HexText(bs)[2 * i] == HexDigit(bs[i] / 16) && HexText(bs)[2 * i + 1] == HexDigit(bs[i] % 16)
  {
    HexTextShape(bs);
    if i > 0 { HexTextAt(bs[1..], i - 1); }
  }

  lemma HexDigitsDiffer(a: nat, b: nat)
    requires a < 16 && b < 16 && HexDigit(a) == HexDigit(b)
    ensures a == b
  {
  }

  /** Different digests have different texts. */
  lemma {:induction false} HexTextSame(a: seq<nat>, b: seq<nat>)
    requires AllBytes(a) && AllBytes(b) && |a| == |b| && HexText(a) == HexText(b)
    ensures a == b
  {
    forall i | 0 <= i < |a| ensures a[i] == b[i] {
      HexTextAt(a, i);
      HexTextAt(b, i);
      HexDigitsDiffer(a[i] / 16, b[i] / 16);
      HexDigitsDiffer(a[i] % 16, b[i] % 16);
    }
  }

  /** Fill the text buffer of a digest, low digit before high digit. */
  method DigestText(d: Digest) returns (text: string)
    ensures text == HexText(d)
  {
    var mbuf := new char[32];
    for i := 0 to 16
      invariant forall j :: 0 <= j < i ==> mbuf[2 * j] == HexDigit(d[j] / 16) && mbuf[2 * j + 1] == HexDigit(d[j] % 16)
    {
      mbuf[2 * i + 1] := HexDigit(d[i] % 16);
      mbuf[2 * i] := HexDigit(d[i] / 16);
    }
    text := mbuf[..];
    HexTextShape(d);
    forall k | 0 <= k < 32 ensures text[k] == HexText(d)[k] {
      HexTextAt(d, k / 2);
      assert k == 2 * (k / 2) || k == 2 * (k / 2) + 1;
    }
  }

  // ----- sterile names -----

  function Dash(c: char): char { if c == '/' then '-' else c }

  function Dashes(s: string): string {
    if s == "" then "" else [Dash(s[0])] + Dashes(s[1..])
  }

  /** A name without its leading dot. */
  function Undot(s: string): string { if s != "" && s[0] == '.' then "-" + s[1..] else s }

  function Sterilize(s: string): string { Dashes(Undot(s)) }

  lemma {:induction false} DashesAt(s: string)
    ensures |Dashes(s)| == |s| && forall i :: 0 <= i < |s| ==> Dashes(s)[i] == Dash(s[i])
  {
    if s != "" { DashesAt(s[1..]); }
  }

  /** A slash anywhere and a dot in front become dashes; nothing else changes. */
  lemma {:induction false} SterilizeAt(s: string)
    ensures |Sterilize(s)| == |s|
    ensures forall i :: 0 <= i < |s| ==>
      Sterilize(s)[i] == if s[i] == '/' || (i == 0 && s[i] == '.') then '-' else s[i]
  {
    DashesAt(Undot(s));
  }

  /** Replace what cannot stand in a file name, character by character and in place. */
  method SterilizeString(s: array<char>)
    modifies s
    ensures s[..] == Sterilize(old(s[..]))
  {
    ghost var was := s[..];
    if s.Length > 0 && s[0] == '.' { s[0] := '-'; }
    ghost var start := s[..];
    assert start == Undot(was);
    DashesAt(start);
    for i := 0 to s.Length
      invariant |start| == s.Length
      invariant forall j :: 0 <= j < i ==> s[j] == Dash(start[j])
      invariant forall j :: i <= j < s.Length ==> s[j] == start[j]
    {
      if s[i] == '/' { s[i] := '-'; }
    }
    assert s[..] == Dashes(start);
  }

  lemma {:induction false} DashesNone(s: string)
    requires '/' !in s
    ensures Dashes(s) == s
  {
    if s != "" { DashesNone(s[1..]); }
  }

  lemma {:induction false} SterilizeNone(s: string)
    requires '/' !in s
    ensures Sterilize(s) == Undot(s)
  {
    assert '/' !in Undot(s);
    DashesNone(Undot(s));
  }

  /** Names that are too long, or contain a slash, are stored under their digest. */
  predicate Hashed(n: Naming, name: string) { |name| > n.limit || '/' in name }

  function Digested(n: Naming, name: string): string { HexText(n.md5(name)) }

  function Sterile(n: Naming, name: string): string {
    if Hashed(n, name) then Digested(n, name) else Sterilize(name)
  }

  /** A text that can stand at the start of a file name. */
  predicate Clean(s: string) { '/' !in s && (s == "" || s[0] != '.') }

  lemma {:induction false} DigestedShape(n: Naming, name: string)
    ensures |Digested(n, name)| == 32 && AllHex(Digested(n, name)) && Clean(Digested(n, name))
    ensures '-' !in Digested(n, name)
  {
    HexTextShape(n.md5(name));
  }

  lemma {:induction false} SterileShape(n: Naming, name: string)
    ensures Clean(Sterile(n, name)) && |Sterile(n, name)| == if Hashed(n, name) then 32 else |name|
  {
    if Hashed(n, name) { DigestedShape(n, name); } else { SterilizeNone(name); }
  }

  /** A name that is its own file name: clean within the limit, or the text of its own digest. */
  predicate Steady(n: Naming, name: string) {
    if |name| <= n.limit then name == "" || name[0] != '.' else Digested(n, name) == name
  }

  lemma {:induction false} SteadyExact(n: Naming, name: string)
    requires '/' !in name
    ensures Sterile(n, name) == name <==> Steady(n, name)
  {
    if |name| <= n.limit { SterilizeNone(name); }
  }

  /** With room for a digest, sterile names are their own file names. */
  lemma {:induction false} SterileSteady(n: Naming, name: string)
    requires n.limit >= 32
    ensures Steady(n, Sterile(n, name)) && |Sterile(n, name)| <= n.limit
  {
    SterileShape(n, name);
  }

  /** Exactly when two names become the same: dots and dashes in front are not told apart,
      digested names share their digest, and a digest can be spelled out as a name. */
  lemma {:induction false} SterileSame(n: Naming, a: string, b: string)
    ensures Sterile(n, a) == Sterile(n, b) <==>
      if Hashed(n, a) && Hashed(n, b) then n.md5(a) == n.md5(b)
      else if Hashed(n, a) then b == Digested(n, a)
      else if Hashed(n, b) then a == Digested(n, b)
      else Undot(a) == Undot(b)
  {
    if Hashed(n, a) && Hashed(n, b) {
      if Digested(n, a) == Digested(n, b) { HexTextSame(n.md5(a), n.md5(b)); }
    } else if Hashed(n, a) {
      SpelledDigest(n, a, b);
    } else if Hashed(n, b) {
      SpelledDigest(n, b, a);
    } else {
      SterilizeNone(a);
      SterilizeNone(b);
    }
  }

  lemma {:induction false} SpelledDigest(n: Naming, a: string, b: string)
    requires !Hashed(n, b)
    ensures Sterile(n, b) == Digested(n, a) <==> b == Digested(n, a)
  {
    DigestedShape(n, a);
    SterilizeNone(b);
    var d := Digested(n, a);
    assert IsHex(d[0]);
  }

  // ----- stems -----

  /** A credential is known by its user and, unless it is the user's default, a name. */
  datatype Key = Key(user: string, cred: Option<string>)

  function SterileKey(n: Naming, k: Key): Key {
    Key(Sterile(n, k.user), if k.cred.Some? then Some(Sterile(n, k.cred.value)) else None)
  }

  /** What follows the user in a stem. */
  function Rest(k: Key): string { if k.cred.Some? then "-" + k.cred.value else "" }

  function Joined(k: Key): string { k.user + Rest(k) }

  /** The name of a credential's files, without their suffix. */
  function Stem(n: Naming, k: Key): string { Joined(SterileKey(n, k)) }

  lemma SameRest(j: Key, k: Key)
    requires j.user == k.user && Rest(j) == Rest(k)
    ensures j == k
  {
    if j.cred.Some? && k.cred.Some? { assert Rest(j)[1..] == j.cred.value && Rest(k)[1..] == k.cred.value; }
  }

  /** A stem has no slash, and no dot in front. */
  lemma {:induction false} StemClean(n: Naming, k: Key)
    ensures Clean(Stem(n, k))
  {
    SterileShape(n, k.user);
    if k.cred.Some? { SterileShape(n, k.cred.value); }
  }

  /** The longer user name extends the shorter one by a dash and part of the other's credential name. */
  predicate Overlap(j: Key, k: Key) {
    |j.user| < |k.user| && j.cred.Some? && k.user[..|j.user|] == j.user &&
    k.user[|j.user|..] + Rest(k) == "-" + j.cred.value
  }

  lemma {:induction false} CutStem(u: string, a: string, v: string, b: string)
    requires |u| <= |v| && u + a == v + b
    ensures v[..|u|] == u && a == v[|u|..] + b
  {
    assert (u + a)[..|u|] == u && (v + b)[..|u|] == v[..|u|];
    assert (u + a)[|u|..] == a && (v + b)[|u|..] == v[|u|..] + b;
  }

  lemma {:induction false} OverlapJoins(j: Key, k: Key)
    requires Overlap(j, k)
    ensures Joined(j) == Joined(k)
  {
    assert k.user == j.user + k.user[|j.user|..];
    assert k.user + Rest(k) == j.user + (k.user[|j.user|..] + Rest(k));
  }

  lemma {:induction false} JoinedOverlap(j: Key, k: Key)
    requires |j.user| <= |k.user| && Joined(j) == Joined(k)
    ensures j == k || Overlap(j, k)
  {
    CutStem(j.user, Rest(j), k.user, Rest(k));
    if |j.user| == |k.user| {
      assert k.user[|j.user|..] + Rest(k) == Rest(k);
      SameRest(j, k);
    } else {
      assert Rest(j) != "";
    }
  }

  /** Exactly when two keys share their files: their sterile names are the same, or overlap at a dash. */
  lemma {:induction false} StemsCollide(n: Naming, j: Key, k: Key)
    ensures Stem(n, j) == Stem(n, k) <==>
      var a, b := SterileKey(n, j), SterileKey(n, k); a == b || Overlap(a, b) || Overlap(b, a)
  {
    var a, b := SterileKey(n, j), SterileKey(n, k);
    if Overlap(a, b) { OverlapJoins(a, b); }
    if Overlap(b, a) { OverlapJoins(b, a); }
    if Joined(a) == Joined(b) {
      if |a.user| <= |b.user| { JoinedOverlap(a, b); } else { JoinedOverlap(b, a); }
    }
  }

  /** Users whose sterile names have no dash share files only if their sterile names agree. */
  lemma {:induction false} StemsApart(n: Naming, j: Key, k: Key)
    requires '-' !in Sterile(n, j.user) && '-' !in Sterile(n, k.user)
    ensures Stem(n, j) == Stem(n, k) <==> SterileKey(n, j) == SterileKey(n, k)
  {
    StemsCollide(n, j, k);
    var a, b := SterileKey(n, j), SterileKey(n, k);
    if Overlap(a, b) { OverlapDash(a, b); }
    if Overlap(b, a) { OverlapDash(b, a); }
  }

  lemma OverlapDash(j: Key, k: Key)
    requires Overlap(j, k)
    ensures '-' in k.user
  {
    assert (k.user[|j.user|..] + Rest(k))[0] == '-' && k.user[|j.user|..][0] == k.user[|j.user|];
  }

  /** Pairs of keys that share their files: a dash can stand in either name, and a leading dot
      is stored as a dash. */
  lemma {:induction false} CollidingPairs(n: Naming)
    requires n.limit >= 3
    ensures Stem(n, Key("a", Some("b-c"))) == Stem(n, Key("a-b", Some("c")))
    ensures Stem(n, Key(".a", None)) == Stem(n, Key("-a", None))
  {
    SterilizeNone("a");
    SterilizeNone("b-c");
    SterilizeNone("a-b");
    SterilizeNone("c");
    assert "a" + ("-" + "b-c") == "a-b" + ("-" + "c");
    SterilizeNone(".a");
    SterilizeNone("-a");
    assert Undot(".a") == "-a";
  }

  // ----- taking a stem apart -----

  /** A stem is taken apart at its first dash. */
  function StemKey(stem: string): Key {
    match Split(stem, '-')
    case None => Key(stem, None)
    case Some((user, cred)) => Key(user, Some(cred))
  }

  lemma {:induction false} StemKeyJoins(stem: string)
    ensures Joined(StemKey(stem)) == stem && '-' !in StemKey(stem).user
  {
    SplitParts(stem, '-');
    SplitNoDash(stem, '-');
  }

  lemma {:induction false} SplitNoDash(s: string, c: char)
    ensures match Split(s, c)
      case None => c !in s
      case Some((a, _)) => c !in a
  {
    if s != "" && s[0] != c { SplitNoDash(s[1..], c); }
  }

  /** The stem that a listing looks up for the file of key k. */
  function Redirect(n: Naming, k: Key): string { Stem(n, StemKey(Stem(n, k))) }

  /** The listing comes back to the file it started from. */
  predicate Reached(n: Naming, k: Key) { Redirect(n, k) == Stem(n, k) }

  /** Both parts of the taken-apart stem are their own file names. */
  predicate SteadyKey(n: Naming, k: Key) { Steady(n, k.user) && (k.cred.Some? ==> Steady(n, k.cred.value)) }

  /** Exactly when the listing comes back: neither part of the stem is longer than the limit (unless
      it spells its own digest), and the part behind the first dash does not start with a dot. */
  lemma {:induction false} ReachedExact(n: Naming, k: Key)
    ensures Reached(n, k) <==> SteadyKey(n, StemKey(Stem(n, k)))
  {
    var stem := Stem(n, k);
    var t := StemKey(stem);
    StemClean(n, k);
    StemKeyJoins(stem);
    PartsClean(t, stem);
    SteadyExact(n, t.user);
    if t.cred.Some? { SteadyExact(n, t.cred.value); }
    if Reached(n, k) {
      SterileDashFree(n, t.user);
      assert '-' !in SterileKey(n, t).user;
      SameJoined(SterileKey(n, t), t);
    }
  }

  lemma {:induction false} PartsClean(t: Key, stem: string)
    requires Joined(t) == stem && Clean(stem)
    ensures '/' !in t.user && (t.cred.Some? ==> '/' !in t.cred.value)
  {
    assert forall c :: c in t.user ==> c in stem;
    if t.cred.Some? {
      assert forall c :: c in t.cred.value ==> c in "-" + t.cred.value;
      assert forall c :: c in Rest(t) ==> c in stem;
    }
  }

  /** Making a slash-free name without dashes sterile brings in a dash only for a leading dot. */
  lemma {:induction false} SterileDashFree(n: Naming, name: string)
    requires '-' !in name && '/' !in name
    ensures '-' !in Sterile(n, name) || (name != "" && name[0] == '.')
  {
    if Hashed(n, name) { DigestedShape(n, name); } else { SterilizeNone(name); }
  }

  lemma {:induction false} SameJoined(a: Key, b: Key)
    requires '-' !in a.user && '-' !in b.user && Joined(a) == Joined(b)
    ensures a == b
  {
    if |a.user| <= |b.user| { JoinedOverlap(a, b); } else { JoinedOverlap(b, a); }
    if Overlap(a, b) { OverlapDash(a, b); }
    if Overlap(b, a) { OverlapDash(b, a); }
  }

  lemma {:induction false} SterileStemKey(n: Naming, t: Key)
    requires '-' !in Sterile(n, t.user)
    ensures StemKey(Stem(n, t)) == SterileKey(n, t)
  {
    StemKeyJoins(Stem(n, t));
    SameJoined(StemKey(Stem(n, t)), SterileKey(n, t));
  }

  lemma {:induction false} DashFreeSteady(n: Naming, t: Key)
    requires n.limit >= 32 && '-' !in Sterile(n, t.user)
    ensures SteadyKey(n, StemKey(Stem(n, t)))
  {
    SterileStemKey(n, t);
    SterileSteady(n, t.user);
    if t.cred.Some? { SterileSteady(n, t.cred.value); }
  }

  /** A listing always comes back to the files of users whose sterile name has no dash. */
  lemma {:induction false} DashFreeReached(n: Naming, k: Key)
    requires n.limit >= 32 && '-' !in Sterile(n, k.user)
    ensures Reached(n, k)
  {
    DashFreeSteady(n, k);
    ReachedExact(n, k);
  }

  /** Wherever a listing is led, it comes back to that place: it is never led to a file that
      leads on to another. */
  lemma {:induction false} RedirectReached(n: Naming, k: Key, j: Key)
    requires n.limit >= 32 && Stem(n, j) == Redirect(n, k)
    ensures Reached(n, j)
  {
    var t := StemKey(Stem(n, k));
    StemClean(n, k);
    StemKeyJoins(Stem(n, k));
    PartsClean(t, Stem(n, k));
    SterileDashFree(n, t.user);
    DashFreeSteady(n, t);
    ReachedExact(n, j);
  }

  /** A user name with a dot behind its first dash is not reached; the listing is led to the
      files of another key. */
  lemma {:induction false} DottedNotReached(n: Naming)
    requires n.limit >= 4
    ensures !Reached(n, Key("a-.b", None)) && Redirect(n, Key("a-.b", None)) == Stem(n, Key("a", Some("-b")))
  {
    SterilizeNone("a-.b");
    SplitAt("a", '-', ".b");
    assert "a" + ['-'] + ".b" == "a-.b" && Stem(n, Key("a-.b", None)) == "a-.b";
    SterilizeNone("a");
    SterilizeNone(".b");
    SterilizeNone("-b");
    assert Undot(".b") == "-b";
    var there := Stem(n, Key("a", Some("-b")));
    assert there == "a" + ("-" + "-b") && there[2] == '-' && "a-.b"[2] == '.';
  }

  /** Neither is a user name with a dash whose credential name is as long as the limit allows:
      the part behind the first dash is too long, and its digest is looked up instead. */
  lemma {:induction false} LimitNotReached(n: Naming, cred: string)
    requires n.limit >= 3 && |cred| == n.limit && Clean(cred) && Digested(n, "b-" + cred) != "b-" + cred
    ensures !Reached(n, Key("a-b", Some(cred)))
  {
    var k := Key("a-b", Some(cred));
    SterilizeNone("a-b");
    SterilizeNone(cred);
    assert Stem(n, k) == "a" + ['-'] + ("b-" + cred);
    SplitAt("a", '-', "b-" + cred);
    ReachedExact(n, k);
  }
}
