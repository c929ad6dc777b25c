/** The data file kept with each stored credential (myproxy_creds.c). */
module Datafile {
  import opened Common
  import opened Numbers

  datatype Var = Owner | Lifetime | Name | Description | Retrievers | KeyRetrievers | TrustedRetrievers | Renewers
               | Username | Passphrase

  datatype Record = Record(owner: Option<string>, lifetime: int, name: Option<string>, description: Option<string>,
                           retrievers: Option<string>, keyRetrievers: Option<string>,
                           trustedRetrievers: Option<string>, renewers: Option<string>,
                           username: Option<string>, passphrase: Option<string>)

  const BLANK := Record(None, 0, None, None, None, None, None, None, None, None)

  /** The variables in the order they are written; a passphrase is only ever read. */
  const WRITTEN := [Owner, Lifetime, Name, Description, Retrievers, KeyRetrievers, TrustedRetrievers, Renewers,
                    Username]

  const END := "END_OPTIONS"

  function Text(v: Var): string {
    match v
    case Owner => "OWNER"
    case Lifetime => "LIFETIME"
    case Name => "NAME"
    case Description => "DESCRIPTION"
    case Retrievers => "RETRIEVERS"
    case KeyRetrievers => "KEYRETRIEVERS"
    case TrustedRetrievers => "TRUSTED_RETRIEVERS"
    case Renewers => "RENEWERS"
    case Username => "USERNAME"
    case Passphrase => "PASSPHRASE"
  }

  /** The variable a name stands for: the comparisons are exact. */
  function VarOf(name: string): Option<Var> {
    if name == "OWNER" then Some(Owner)
    else if name == "PASSPHRASE" then Some(Passphrase)
    else if name == "RETRIEVERS" then Some(Retrievers)
    else if name == "KEYRETRIEVERS" then Some(KeyRetrievers)
    else if name == "TRUSTED_RETRIEVERS" then Some(TrustedRetrievers)
    else if name == "RENEWERS" then Some(Renewers)
    else if name == "NAME" then Some(Name)
    else if name == "DESCRIPTION" then Some(Description)
    else if name == "LIFETIME" then Some(Lifetime)
    else if name == "USERNAME" then Some(Username)
    else None
  }

  /** The text written for a variable, if any. */
  function ValueOf(r: Record, v: Var): Option<string> {
    match v
    case Owner => r.owner
    case Lifetime => Some(FormatInt(r.lifetime))
    case Name => r.name
    case Description => r.description
    case Retrievers => r.retrievers
    case KeyRetrievers => r.keyRetrievers
    case TrustedRetrievers => r.trustedRetrievers
    case Renewers => r.renewers
    case Username => r.username
    case Passphrase => None
  }

  function Update(r: Record, v: Var, value: string): Record {
    match v
    case Owner => r.(owner := Some(value))
    case Lifetime => r.(lifetime := ToInt(StrtolDecimal(value)))
    case Name => r.(name := Some(value))
    case Description => r.(description := Some(value))
    case Retrievers => r.(retrievers := Some(value))
    case KeyRetrievers => r.(keyRetrievers := Some(value))
    case TrustedRetrievers => r.(trustedRetrievers := Some(value))
    case Renewers => r.(renewers := Some(value))
    case Username => r.(username := Some(value))
    case Passphrase => r.(passphrase := Some(value))
  }

  function Line(v: Var, value: string): string { Text(v) + "=" + value + "\n" }

  function PrintVars(r: Record, vars: seq<Var>): string {
    if vars == [] then END + "\n"
    else
      var rest := PrintVars(r, vars[1..]);
      match ValueOf(r, vars[0])
      case None => rest
      case Some(value) => Line(vars[0], value) + rest
  }

  function Print(r: Record): string { PrintVars(r, WRITTEN) }

  // ----- reading -----

  /** What one line does: the file ends well, the line is refused, or it sets a variable. */
  datatype Effect = Finished | Malformed | Sets(v: Var, value: string)

  function LineEffect(line: string): Effect {
    match Split(line, '=')
    case None => if line == END then Finished else Malformed
    case Some((name, value)) =>
      if name == END then Finished
      else if VarOf(name).None? then Malformed
      else Sets(VarOf(name).value, value)
  }

  /** Read line after line; a file that ends before its END_OPTIONS line is refused. */
  function Parse(s: string, r: Record): Option<Record>
    decreases |s|
  {
    match Split(s, '\n')
    case None => None
    case Some((line, rest)) =>
      match LineEffect(line)
      case Finished => Some(r)
      case Malformed => None
      case Sets(v, value) => Parse(rest, Update(r, v, value))
  }

  lemma ShortVar(v: Var)
    requires |Text(v)| <= 9
    ensures VarOf(Text(v)) == Some(v) && Text(v) != END && '=' !in Text(v) && '\n' !in Text(v)
  {
  }

  lemma LongVar(v: Var)
    requires |Text(v)| > 9
    ensures VarOf(Text(v)) == Some(v) && Text(v) != END && '=' !in Text(v) && '\n' !in Text(v)
  {
  }

  lemma VarRoundTrip(v: Var)
    ensures VarOf(Text(v)) == Some(v) && Text(v) != END && '=' !in Text(v) && '\n' !in Text(v)
  {
    if |Text(v)| <= 9 { ShortVar(v); } else { LongVar(v); }
  }

  /** A written line sets its variable to the whole value, '=' included. */
  lemma {:induction false} ParseLine(v: Var, value: string, rest: string, r: Record)
    requires '\n' !in value
    ensures Parse(Line(v, value) + rest, r) == Parse(rest, Update(r, v, value))
  {
    VarRoundTrip(v);
    var line := Text(v) + ['='] + value;
    SplitAt(Text(v), '=', value);
    assert Line(v, value) + rest == line + ['\n'] + rest;
    SplitAt(line, '\n', rest);
  }

  lemma {:induction false} ParseEnd(junk: string, r: Record)
    ensures Parse(END + "\n" + junk, r) == Some(r)
  {
    assert '\n' !in END && '=' !in END;
    SplitAt(END, '\n', junk);
    SplitNone(END, '=');
    assert END + "\n" + junk == END + ['\n'] + junk;
  }

  predicate OneLineValue(r: Record, v: Var) { ValueOf(r, v).Some? ==> '\n' !in ValueOf(r, v).value }

  predicate OneLineValues(r: Record, vars: seq<Var>) { forall i :: 0 <= i < |vars| ==> OneLineValue(r, vars[i]) }

  /** The record after setting the variables in turn. */
  function Fill(d: Record, r: Record, vars: seq<Var>): Record
    decreases vars
  {
    if vars == [] then d
    else
      match ValueOf(r, vars[0])
      case None => Fill(d, r, vars[1..])
      case Some(value) => Fill(Update(d, vars[0], value), r, vars[1..])
  }

  lemma {:induction false} ParsePrinted(r: Record, vars: seq<Var>, junk: string, d: Record)
    requires OneLineValues(r, vars)
    ensures Parse(PrintVars(r, vars) + junk, d) == Some(Fill(d, r, vars))
  {
    if vars == [] {
      ParseEnd(junk, d);
    } else {
      var rest := PrintVars(r, vars[1..]);
      assert OneLineValue(r, vars[0]);
      match ValueOf(r, vars[0])
      case None => ParsePrinted(r, vars[1..], junk, d);
      case Some(value) =>
        ParsePrinted(r, vars[1..], junk, Update(d, vars[0], value));
        ParseLine(vars[0], value, rest + junk, d);
        assert Line(vars[0], value) + rest + junk == Line(vars[0], value) + (rest + junk);
    }
  }

  // ----- the filled record is the printed one -----

  datatype Content = Str(text: Option<string>) | Num(value: int)

  function Get(r: Record, v: Var): Content {
    match v
    case Owner => Str(r.owner)
    case Lifetime => Num(r.lifetime)
    case Name => Str(r.name)
    case Description => Str(r.description)
    case Retrievers => Str(r.retrievers)
    case KeyRetrievers => Str(r.keyRetrievers)
    case TrustedRetrievers => Str(r.trustedRetrievers)
    case Renewers => Str(r.renewers)
    case Username => Str(r.username)
    case Passphrase => Str(r.passphrase)
  }

  lemma {:induction false} UpdateGet(d: Record, r: Record, v: Var, w: Var)
    requires IsInt(r.lifetime) && ValueOf(r, v).Some?
    ensures Get(Update(d, v, ValueOf(r, v).value), w) == if v == w then Get(r, v) else Get(d, w)
  {
    if v == Lifetime { DecimalIntRoundTrip(r.lifetime); }
  }

  lemma {:induction false} FillGet(d: Record, r: Record, vars: seq<Var>, w: Var)
    requires IsInt(r.lifetime)
    ensures Get(Fill(d, r, vars), w) == if w in vars && ValueOf(r, w).Some? then Get(r, w) else Get(d, w)
    decreases vars
  {
    if vars != [] {
      match ValueOf(r, vars[0])
      case None => FillGet(d, r, vars[1..], w);
      case Some(value) =>
        FillGet(Update(d, vars[0], value), r, vars[1..], w);
        UpdateGet(d, r, vars[0], w);
    }
  }

  lemma SameRecord(a: Record, b: Record)
    requires forall v: Var :: Get(a, v) == Get(b, v)
    ensures a == b
  {
    assert Get(a, Owner) == Get(b, Owner) && Get(a, Lifetime) == Get(b, Lifetime) && Get(a, Name) == Get(b, Name);
    assert Get(a, Description) == Get(b, Description) && Get(a, Retrievers) == Get(b, Retrievers);
    assert Get(a, KeyRetrievers) == Get(b, KeyRetrievers) && Get(a, TrustedRetrievers) == Get(b, TrustedRetrievers);
    assert Get(a, Renewers) == Get(b, Renewers) && Get(a, Username) == Get(b, Username);
    assert Get(a, Passphrase) == Get(b, Passphrase);
  }

  lemma AllWritten(v: Var)
    ensures v in WRITTEN <==> v != Passphrase
  {
    match v
    case Owner => assert WRITTEN[0] == v;
    case Lifetime => assert WRITTEN[1] == v;
    case Name => assert WRITTEN[2] == v;
    case Description => assert WRITTEN[3] == v;
    case Retrievers => assert WRITTEN[4] == v;
    case KeyRetrievers => assert WRITTEN[5] == v;
    case TrustedRetrievers => assert WRITTEN[6] == v;
    case Renewers => assert WRITTEN[7] == v;
    case Username => assert WRITTEN[8] == v;
    case Passphrase =>
  }

  /** A record the writer is given: an owner, an int lifetime, single-line values. */
  predicate Storable(r: Record) {
    r.owner.Some? && IsInt(r.lifetime) && r.passphrase == None && forall v: Var :: OneLineValue(r, v)
  }

  predicate Complete(vars: seq<Var>) { forall v: Var :: v in vars <==> v != Passphrase }

  lemma {:induction false} FilledField(r: Record, vars: seq<Var>, v: Var)
    requires IsInt(r.lifetime) && r.passphrase == None && Complete(vars)
    ensures Get(Fill(BLANK, r, vars), v) == Get(r, v)
  {
    FillGet(BLANK, r, vars, v);
  }

  lemma {:induction false} Filled(r: Record, vars: seq<Var>)
    requires IsInt(r.lifetime) && r.passphrase == None && Complete(vars)
    ensures Fill(BLANK, r, vars) == r
  {
    forall v: Var ensures Get(Fill(BLANK, r, vars), v) == Get(r, v) { FilledField(r, vars, v); }
    SameRecord(Fill(BLANK, r, vars), r);
  }

  lemma {:induction false} RoundTripBy(r: Record, vars: seq<Var>, junk: string)
    requires Storable(r) && Complete(vars)
    ensures Parse(PrintVars(r, vars) + junk, BLANK) == Some(r)
  {
    ParsePrinted(r, vars, junk, BLANK);
    Filled(r, vars);
  }

  lemma WrittenComplete()
    ensures Complete(WRITTEN)
  {
    forall v: Var ensures v in WRITTEN <==> v != Passphrase { AllWritten(v); }
  }

  /** Reading a written data file gives back every field, whatever follows in the file. */
  lemma {:induction false} DataRoundTrip(r: Record, junk: string)
    requires Storable(r)
    ensures Parse(Print(r) + junk, BLANK) == Some(r)
  {
    WrittenComplete();
    RoundTripBy(r, WRITTEN, junk);
  }

  // ----- the text of the file -----

  function Optionally(name: string, o: Option<string>): string {
    if o.Some? then name + "=" + o.value + "\n" else ""
  }

  /** The line a record has for a variable. */
  function VarLine(r: Record, v: Var): string {
    match v
    case Owner => Optionally("OWNER", r.owner)
    case Lifetime => "LIFETIME=" + FormatInt(r.lifetime) + "\n"
    case Name => Optionally("NAME", r.name)
    case Description => Optionally("DESCRIPTION", r.description)
    case Retrievers => Optionally("RETRIEVERS", r.retrievers)
    case KeyRetrievers => Optionally("KEYRETRIEVERS", r.keyRetrievers)
    case TrustedRetrievers => Optionally("TRUSTED_RETRIEVERS", r.trustedRetrievers)
    case Renewers => Optionally("RENEWERS", r.renewers)
    case Username => Optionally("USERNAME", r.username)
    case Passphrase => ""
  }

  function VarLines(r: Record, vars: seq<Var>): string {
    if vars == [] then "END_OPTIONS\n" else VarLine(r, vars[0]) + VarLines(r, vars[1..])
  }

  lemma {:induction false} LineFormat(r: Record, v: Var)
    ensures (match ValueOf(r, v) case None => "" case Some(value) => Line(v, value)) == VarLine(r, v)
  {
    if v == Lifetime { assert "LIFETIME" + "=" == "LIFETIME="; }
  }

  /** A data file is the lines of its variables and the END_OPTIONS line. */
  lemma {:induction false} FileFormat(r: Record, vars: seq<Var>)
    ensures PrintVars(r, vars) == VarLines(r, vars)
  {
    if vars == [] {
      assert END + "\n" == "END_OPTIONS\n";
    } else {
      LineFormat(r, vars[0]);
      FileFormat(r, vars[1..]);
    }
  }

  /** A line with an unknown name, or without a name, spoils the file. */
  lemma {:induction false} StrangeLine(name: string, value: string, rest: string, r: Record)
    requires '=' !in name && '\n' !in name && '\n' !in value && name != "END_OPTIONS"
    ensures Parse(name + "\n" + rest, r) == None
    ensures Parse(name + "=" + value + "\n" + rest, r) ==
      if exists v :: Text(v) == name then Parse(rest, Update(r, VarOf(name).value, value)) else None
  {
    SplitAt(name, '\n', rest);
    SplitNone(name, '=');
    assert name + "\n" + rest == name + ['\n'] + rest;
    var line := name + ['='] + value;
    assert name + "=" + value + "\n" + rest == line + ['\n'] + rest;
    SplitAt(line, '\n', rest);
    SplitAt(name, '=', value);
    VarNames(name);
  }

  lemma VarNames(name: string)
    ensures (exists v :: Text(v) == name) <==> VarOf(name).Some?
    ensures VarOf(name).Some? ==> Text(VarOf(name).value) == name
  {
    if v :| Text(v) == name { VarRoundTrip(v); }
    if VarOf(name).Some? { assert Text(VarOf(name).value) == name; }
  }

  /** Reading ends at END_OPTIONS, also when it is given a value, and never without it. */
  lemma {:induction false} EndLine(value: string, rest: string, r: Record)
    requires '\n' !in value
    ensures Parse(END + "=" + value + "\n" + rest, r) == Some(r) && Parse(value, r) == None
  {
    EndPlain();
    EndedBy(END, value, rest, r);
    SplitNone(value, '\n');
  }

  lemma EndPlain()
    ensures '\n' !in END && '=' !in END
  {
  }

  lemma {:induction false} EndedBy(name: string, value: string, rest: string, r: Record)
    requires name == END && '\n' !in name && '=' !in name && '\n' !in value
    ensures Parse(name + "=" + value + "\n" + rest, r) == Some(r)
  {
    var line := name + ['='] + value;
    assert name + "=" + value + "\n" + rest == line + ['\n'] + rest;
    SplitAt(line, '\n', rest);
    SplitAt(name, '=', value);
  }

  /** A line sets its own variable and no other. */
  lemma {:induction false} SetsOne(v: Var, value: string, rest: string, r: Record, w: Var)
    requires '\n' !in value
    ensures Parse(Line(v, value) + rest, r) == Parse(rest, Update(r, v, value))
    ensures Get(Update(r, v, value), w) ==
      if v != w then Get(r, w) else if v == Lifetime then Num(ToInt(StrtolDecimal(value))) else Str(Some(value))
  {
    ParseLine(v, value, rest, r);
  }

  // ----- the reader, line by line with a growing buffer -----

  /** An open data file and how much of it has been read. */
  class DataStream {
    const text: string
    var pos: nat

    ghost predicate Valid() reads this { pos <= |text| }

    constructor (text: string)
      ensures Valid() && this.text == text && pos == 0
    {
      this.text, pos := text, 0;
    }

    /** Read at most size - 1 characters, up to and including a line end; none at the end of the file. */
    method Fgets(size: nat) returns (got: string)
      requires Valid() && size >= 2
      modifies this`pos
      ensures Valid() && pos == old(pos) + |got| && got == text[old(pos)..pos] && |got| < size
      ensures got == "" <==> old(pos) == |text|
      ensures '\n' !in got[..if got == "" then 0 else |got| - 1]
    {
      got := "";
      while |got| < size - 1 && pos < |text| && (got == "" || got[|got| - 1] != '\n')
        invariant Valid() && pos == old(pos) + |got| && got == text[old(pos)..pos] && |got| <= size - 1
        invariant got == "" ==> pos == old(pos)
        invariant '\n' !in got[..if got == "" then 0 else |got| - 1]
        decreases |text| - pos
      {
        assert text[old(pos)..pos + 1] == got + [text[pos]];
        assert got != "" ==> got == got[..|got| - 1] + [got[|got| - 1]];
        got := got + [text[pos]];
        pos := pos + 1;
        assert got[..|got| - 1] == text[old(pos)..pos - 1];
      }
    }

    /** Read one whole line of any length, doubling the buffer while the line does not fit. */
    method ReadLine(bufferLen: nat) returns (ok: bool, line: string, newLen: nat)
      requires Valid() && bufferLen >= 2
      modifies this`pos
      ensures Valid() && newLen >= bufferLen
      ensures match Split(text[old(pos)..], '\n')
        case None => !ok
        case Some((a, b)) => ok && line == a && text[pos..] == b && pos > old(pos)
    {
      newLen := bufferLen;
      line := Fgets(newLen);
      if line == "" {
        SplitNone(text[old(pos)..], '\n');
        return false, line, newLen;
      }
      while line[|line| - 1] != '\n'
        invariant Valid() && pos == old(pos) + |line| && line == text[old(pos)..pos] && line != ""
        invariant '\n' !in line[..|line| - 1] && newLen >= bufferLen && |line| < newLen
        decreases |text| - pos
      {
        newLen := newLen * 2;
        ghost var before := line;
        assert '\n' !in line by { assert line == line[..|line| - 1] + [line[|line| - 1]]; }
        var more := Fgets(newLen - |line|);
        if more == "" {
          assert text[old(pos)..] == line;
          SplitNone(text[old(pos)..], '\n');
          return false, line, newLen;
        }
        assert text[old(pos)..pos] == line + more;
        line := line + more;
        assert line[..|line| - 1] == before + more[..|more| - 1];
      }
      ok := true;
      assert text[old(pos)..] == line[..|line| - 1] + ['\n'] + text[pos..];
      SplitAt(line[..|line| - 1], '\n', text[pos..]);
      line := line[..|line| - 1];
    }

    /** Read the whole record, changing it line by line. */
    method ReadDataFile() returns (ok: bool, r: Record)
      requires Valid() && pos == 0
      modifies this`pos
      ensures match Parse(text, BLANK)
        case None => !ok
        case Some(d) => ok && r == d
    {
      r := BLANK;
      var bufferLen := 512;
      assert text[0..] == text;
      while true
        invariant Valid() && bufferLen >= 2 && Parse(text[pos..], r) == Parse(text, BLANK)
        decreases |text| - pos
      {
        var got, line, newLen := ReadLine(bufferLen);
        bufferLen := newLen;
        if !got { return false, r; }
        match LineEffect(line)
        case Finished => return true, r;
        case Malformed => return false, r;
        case Sets(v, value) => r := Update(r, v, value);
      }
    }
  }
}
