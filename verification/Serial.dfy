/** Serial numbers drawn by many processes from one locked file (certauth_extensions.c). */
module Serial {
  import opened Common

  // ----- the text of a serial number -----

  /** The bytes of n, most significant first; zero is one byte. */
  function Bytes(n: nat): (bs: seq<nat>)
    ensures bs != []
  {
    if n < 256 then [n] else Bytes(n / 256) + [n % 256]
  }

  predicate AllBytes(bs: seq<nat>) { forall i :: 0 <= i < |bs| ==> bs[i] < 256 }

  function Fold(bs: seq<nat>, acc: nat): nat {
    if bs == [] then acc else Fold(bs[1..], acc * 256 + bs[0])
  }

  function Hex(d: nat): char
    requires d < 16
  {
    if d < 10 then ('0' as int + d) as char else ('A' as int + d - 10) as char
  }

  function HexValue(c: char): Option<nat> {
    if '0' <= c <= '9' then Some(c as int - '0' as int)
    else if 'A' <= c <= 'F' then Some(c as int - 'A' as int + 10)
    else if 'a' <= c <= 'f' then Some(c as int - 'a' as int + 10)
    else None
  }

  const BYTES_PER_LINE: nat := 35

  /** A line break behind a backslash goes before every 35th byte. */
  function Break(i: nat): string { if i > 0 && i % BYTES_PER_LINE == 0 then "\\\n" else "" }

  function Pair(b: nat): string
    requires b < 256
  {
    [Hex(b / 16), Hex(b % 16)]
  }

  /** Two digits a byte, from the i-th byte on. */
  function Text(bs: seq<nat>, i: nat): string
    requires AllBytes(bs)
  {
    if bs == [] then "" else Break(i) + (Pair(bs[0]) + Text(bs[1..], i + 1))
  }

  lemma {:induction false} BytesAreBytes(n: nat)
    ensures AllBytes(Bytes(n))
  {
    if n >= 256 { BytesAreBytes(n / 256); }
  }

  /** What is written for n: its text and a line end. */
  function Written(n: nat): string {
    BytesAreBytes(n);
    Text(Bytes(n), 0) + "\n"
  }

  /** Read digit pairs up to anything that is neither a digit nor a continued line end. */
  function ReadHex(s: string, acc: nat): Option<nat> {
    if |s| >= 2 && s[..2] == "\\\n" then ReadHex(s[2..], acc)
    else if s == "" || HexValue(s[0]).None? then Some(acc)
    else if |s| < 2 || HexValue(s[1]).None? then None
    else ReadHex(s[2..], acc * 256 + HexValue(s[0]).value * 16 + HexValue(s[1]).value)
  }

  function Decode(s: string): Option<nat> {
    if s == "" || HexValue(s[0]).None? then None else ReadHex(s, 0)
  }

  lemma HexRoundTrip(d: nat)
    requires d < 16
    ensures HexValue(Hex(d)) == Some(d) && Hex(d) != '\\'
  {
  }

  lemma {:induction false} FoldAppend(bs: seq<nat>, b: nat, acc: nat)
    ensures Fold(bs + [b], acc) == Fold(bs, acc) * 256 + b
  {
    if bs == [] {
      assert bs + [b] == [b];
      assert Fold([b], acc) == Fold([b][1..], acc * 256 + b);
    } else {
      assert (bs + [b])[1..] == bs[1..] + [b];
      FoldAppend(bs[1..], b, acc * 256 + bs[0]);
    }
  }

  lemma {:induction false} FoldBytes(n: nat)
    ensures Fold(Bytes(n), 0) == n
  {
    if n < 256 {
      assert Fold([n], 0) == Fold([n][1..], n);
    } else {
      FoldBytes(n / 256);
      FoldAppend(Bytes(n / 256), n % 256, 0);
    }
  }

  lemma {:induction false} ReadPair(b: nat, rest: string, acc: nat)
    requires b < 256
    ensures ReadHex(Pair(b) + rest, acc) == ReadHex(rest, acc * 256 + b)
  {
    var s := Pair(b) + rest;
    HexRoundTrip(b / 16);
    HexRoundTrip(b % 16);
    assert s[0] == Hex(b / 16) && s[1] == Hex(b % 16) && s[2..] == rest;
    assert s[..2][0] == s[0];
  }

  lemma {:induction false} ReadBreak(i: nat, rest: string, acc: nat)
    ensures ReadHex(Break(i) + rest, acc) == ReadHex(rest, acc)
  {
    var s := Break(i) + rest;
    if Break(i) == "" {
      assert s == rest;
    } else {
      assert s[..2] == "\\\n" && s[2..] == rest;
    }
  }

  lemma Glue(a: string, b: string, c: string, d: string)
    ensures (a + (b + c)) + d == a + (b + (c + d))
  {
  }

  lemma Continued(s: string)
    ensures |s| >= 2 && s[..2] == "\\\n" <==> |s| >= 2 && s[0] == '\\' && s[1] == '\n'
  {
    if |s| >= 2 { assert s[..2] == [s[0], s[1]]; }
  }

  /** Where reading stops: at the end, or at anything that is no digit and continues no line. */
  predicate Stops(s: string) { s == "" || (HexValue(s[0]).None? && !(|s| >= 2 && s[..2] == "\\\n")) }

  /** A single digit cannot be read. */
  predicate Odd(s: string) { s != "" && HexValue(s[0]).Some? && (|s| == 1 || HexValue(s[1]).None?) }

  lemma DigitContinuesNothing(s: string)
    requires s != "" && HexValue(s[0]).Some?
    ensures !(|s| >= 2 && s[..2] == "\\\n")
  {
    Continued(s);
  }

  lemma {:induction false} ReadTail(bs: seq<nat>, i: nat, tail: string, acc: nat)
    requires AllBytes(bs) && (Stops(tail) || Odd(tail))
    ensures ReadHex(Text(bs, i) + tail, acc) == if Odd(tail) then None else Some(Fold(bs, acc))
  {
    if bs == [] {
      assert "" + tail == tail;
      if Odd(tail) { DigitContinuesNothing(tail); }
    } else {
      var text := Text(bs[1..], i + 1);
      ReadTail(bs[1..], i + 1, tail, acc * 256 + bs[0]);
      ReadPair(bs[0], text + tail, acc);
      ReadBreak(i, Pair(bs[0]) + (text + tail), acc);
      Glue(Break(i), Pair(bs[0]), text, tail);
    }
  }

  /** A file that starts with the text of n is read as n. */
  lemma {:induction false} DecodeWritten(n: nat, junk: string)
    ensures Decode(Written(n) + junk) == Some(n)
  {
    BytesAreBytes(n);
    var bs := Bytes(n);
    Continued("\n" + junk);
    ReadTail(bs, 0, "\n" + junk, 0);
    FoldBytes(n);
    HexRoundTrip(bs[0] / 16);
    assert Written(n) + junk == Text(bs, 0) + ("\n" + junk);
    assert Text(bs, 0)[0] == Hex(bs[0] / 16);
  }

  /** Two upper-case digits a byte, one byte at least. */
  lemma WrittenExamples()
    ensures Written(0) == "00\n" && Written(255) == "FF\n" && Written(256) == "0100\n"
  {
    assert Bytes(0) == [0] && Bytes(255) == [255] && Bytes(256) == [1, 0];
    assert Text([0], 0) == "00" && Text([255], 0) == "FF";
    assert [1, 0][1..] == [0] && Text([0], 1) == "00" && Text([1, 0], 0) == "0100";
  }

  // ----- the text never shrinks -----

  function TextLength(k: nat, i: nat): nat {
    if k == 0 then 0 else |Break(i)| + 2 + TextLength(k - 1, i + 1)
  }

  lemma {:induction false} TextHasLength(bs: seq<nat>, i: nat)
    requires AllBytes(bs)
    ensures |Text(bs, i)| == TextLength(|bs|, i)
  {
    if bs != [] { TextHasLength(bs[1..], i + 1); }
  }

  lemma {:induction false} LengthGrows(k: nat, m: nat, i: nat)
    requires k <= m
    ensures TextLength(k, i) <= TextLength(m, i)
  {
    if k > 0 { LengthGrows(k - 1, m - 1, i + 1); }
  }

  lemma {:induction false} BytesGrow(m: nat, n: nat)
    requires m <= n
    ensures |Bytes(m)| <= |Bytes(n)|
  {
    if m >= 256 { BytesGrow(m / 256, n / 256); }
  }

  lemma {:induction false} WrittenGrows(m: nat, n: nat)
    requires m <= n
    ensures |Written(m)| <= |Written(n)|
  {
    BytesAreBytes(m);
    BytesAreBytes(n);
    BytesGrow(m, n);
    TextHasLength(Bytes(m), 0);
    TextHasLength(Bytes(n), 0);
    LengthGrows(|Bytes(m)|, |Bytes(n)|, 0);
  }

  // ----- one allocation -----

  /** Writing at the start of a file leaves what lies beyond the new text. */
  function Overwrite(file: string, text: string): string {
    text + if |text| <= |file| then file[|text|..] else ""
  }

  /** The overwritten file starts with the new text and keeps the old one's tail, no more and no less. */
  lemma OverwriteExact(file: string, text: string)
    ensures var f := Overwrite(file, text);
      && |f| == (if |text| < |file| then |file| else |text|) && text <= f
      && forall i :: |text| <= i < |f| ==> f[i] == file[i]
  {
  }

  /** The serial number a file holds; an empty file holds the first one. */
  function Current(file: string, skip: nat): Option<nat> {
    if file == "" then Some(skip) else Decode(file)
  }

  /** The untruncated overwrite always leaves a file that reads as the next number. */
  lemma {:induction false} NextFile(file: string, next: nat, skip: nat)
    ensures Current(Overwrite(file, Written(next)), skip) == Some(next)
  {
    DecodeWritten(next, if |Written(next)| <= |file| then file[|Written(next)|..] else "");
  }

  /** The file holds one number and nothing else. */
  ghost predicate Canonical(file: string) { file == "" || exists n :: file == Written(n) }

  /** From a canonical file the overwrite leaves exactly the next number's text. */
  lemma {:induction false} NextExact(file: string, current: nat, next: nat, skip: nat)
    requires Canonical(file) && Current(file, skip) == Some(current) && current <= next
    ensures Overwrite(file, Written(next)) == Written(next)
  {
    if file != "" {
      var n :| file == Written(n);
      DecodeWritten(n, "");
      assert Written(n) + "" == file;
      WrittenGrows(n, next);
    }
  }

  /** A file longer than the new text keeps a stale tail. */
  lemma {:induction false} StaleTail(file: string, next: nat)
    ensures Overwrite(file, Written(next)) == Written(next) <==> |file| <= |Written(next)|
  {
    OverwriteExact(file, Written(next));
  }

  // ----- many processes -----

  /** Where a process is: loading and overwriting happen under the lock, the certificate gets
      its number after the lock is released. */
  datatype Phase = Idle | Locked | Loaded(serial: nat) | Stored(serial: nat) | Issued(serial: nat) | Gone

  /** The log lists who overwrote the file with the successor of which number, in lock order. */
  datatype Entry = Entry(process: nat, serial: nat)

  datatype State = State(file: string, lock: Option<nat>, procs: seq<Phase>, log: seq<Entry>)

  datatype Step = Acquire(p: nat) | Load(p: nat) | Store(p: nat) | Issue(p: nat) | Quit(p: nat)

  predicate Enabled(s: State, step: Step) {
    step.p < |s.procs| &&
    match step
    case Acquire(p) => s.procs[p] == Idle && s.lock == None
    case Load(p) => s.procs[p] == Locked
    case Store(p) => s.procs[p].Loaded?
    case Issue(p) => s.procs[p].Stored?
    case Quit(p) => !s.procs[p].Issued? && !s.procs[p].Gone?
  }

  /** A process that cannot read the file gives up; one that goes away releases its lock. */
  function Apply(s: State, step: Step, skip: nat): State
    requires Enabled(s, step)
  {
    match step
    case Acquire(p) => s.(lock := Some(p), procs := s.procs[p := Locked])
    case Load(p) =>
      (match Current(s.file, skip)
       case None => s.(lock := None, procs := s.procs[p := Gone])
       case Some(c) => s.(procs := s.procs[p := Loaded(c)]))
    case Store(p) =>
      var c := s.procs[p].serial;
      State(Overwrite(s.file, Written(c + skip)), None, s.procs[p := Stored(c)], s.log + [Entry(p, c)])
    case Issue(p) => s.(procs := s.procs[p := Issued(s.procs[p].serial)])
    case Quit(p) => s.(lock := if s.lock == Some(p) then None else s.lock, procs := s.procs[p := Gone])
  }

  predicate IsRun(s: State, steps: seq<Step>, skip: nat)
    decreases |steps|
  {
    steps == [] || (Enabled(s, steps[0]) && IsRun(Apply(s, steps[0], skip), steps[1..], skip))
  }

  function Exec(s: State, steps: seq<Step>, skip: nat): State
    requires IsRun(s, steps, skip)
    decreases |steps|
  {
    if steps == [] then s else Exec(Apply(s, steps[0], skip), steps[1..], skip)
  }

  function Start(file: string, procs: nat): State {
    State(file, None, seq(procs, i => Idle), [])
  }

  /** The i-th number counted from first in steps of skip. */
  function Nth(first: nat, i: nat, skip: nat): nat {
    if i == 0 then first else Nth(first, i - 1, skip) + skip
  }

  lemma {:induction false} NthGrows(first: nat, i: nat, j: nat, skip: nat)
    requires i < j && skip > 0
    ensures Nth(first, i, skip) < Nth(first, j, skip)
  {
    if i < j - 1 { NthGrows(first, i, j - 1, skip); }
  }

  predicate Holds(phase: Phase) { phase.Locked? || phase.Loaded? }

  predicate Drawn(phase: Phase) { phase.Stored? || phase.Issued? }

  ghost predicate LockInv(s: State) {
    (forall p :: 0 <= p < |s.procs| && Holds(s.procs[p]) ==> s.lock == Some(p)) &&
    (s.lock.Some? ==> s.lock.value < |s.procs| && Holds(s.procs[s.lock.value]))
  }

  ghost predicate LoadInv(s: State, skip: nat) {
    forall p :: 0 <= p < |s.procs| && s.procs[p].Loaded? ==> Current(s.file, skip) == Some(s.procs[p].serial)
  }

  /** The log counts up from the first number, and the file holds the number after the last. */
  ghost predicate LogInv(s: State, first: Option<nat>, skip: nat) {
    match first
    case None => s.log == [] && Current(s.file, skip) == None
    case Some(n) => Current(s.file, skip) == Some(Nth(n, |s.log|, skip)) && Counts(s.log, n, skip)
  }

  ghost predicate Counts(log: seq<Entry>, n: nat, skip: nat) {
    forall i :: 0 <= i < |log| ==> log[i].serial == Nth(n, i, skip)
  }

  ghost predicate DrawnInv(s: State) {
    forall p :: 0 <= p < |s.procs| && Drawn(s.procs[p]) ==> Entry(p, s.procs[p].serial) in s.log
  }

  ghost predicate Inv(s: State, first: Option<nat>, skip: nat) {
    LockInv(s) && LoadInv(s, skip) && LogInv(s, first, skip) && DrawnInv(s)
  }

  lemma StartInv(file: string, procs: nat, skip: nat)
    ensures Inv(Start(file, procs), Current(file, skip), skip)
  {
  }

  lemma {:induction false} LoadedNumber(s: State, p: nat, first: Option<nat>, skip: nat)
    requires Inv(s, first, skip) && p < |s.procs| && s.procs[p].Loaded?
    ensures Current(s.file, skip) == Some(s.procs[p].serial)
    ensures first.Some? && s.procs[p].serial == Nth(first.value, |s.log|, skip)
  {
  }

  lemma {:induction false} StoreLog(log: seq<Entry>, e: Entry, n: nat, skip: nat)
    requires Counts(log, n, skip) && e.serial == Nth(n, |log|, skip)
    ensures Counts(log + [e], n, skip) && Nth(n, |log + [e]|, skip) == e.serial + skip
  {
  }

  lemma {:induction false} StoreCounts(s: State, p: nat, first: Option<nat>, skip: nat)
    requires Inv(s, first, skip) && Enabled(s, Store(p))
    ensures LogInv(Apply(s, Store(p), skip), first, skip)
  {
    var c := s.procs[p].serial;
    LoadedNumber(s, p, first, skip);
    StoreLog(s.log, Entry(p, c), first.value, skip);
    NextFile(s.file, c + skip, skip);
  }

  lemma {:induction false} StoreKeeps(s: State, p: nat, first: Option<nat>, skip: nat)
    requires Inv(s, first, skip) && Enabled(s, Store(p))
    ensures Inv(Apply(s, Store(p), skip), first, skip)
  {
    StoreCounts(s, p, first, skip);
    StoreOthers(s, Apply(s, Store(p), skip), p, skip);
  }

  lemma {:induction false} StoreOthers(s: State, t: State, p: nat, skip: nat)
    requires LockInv(s) && LoadInv(s, skip) && DrawnInv(s) && Enabled(s, Store(p))
    requires t.procs == s.procs[p := Stored(s.procs[p].serial)] && t.lock == None
    requires t.log == s.log + [Entry(p, s.procs[p].serial)]
    ensures LockInv(t) && LoadInv(t, skip) && DrawnInv(t)
  {
    assert Holds(s.procs[p]) && s.lock == Some(p);
    assert forall q :: 0 <= q < |t.procs| && q != p ==> t.procs[q] == s.procs[q];
    assert t.log[|s.log|] == Entry(p, s.procs[p].serial);
  }

  lemma {:induction false} StepKeeps(s: State, step: Step, first: Option<nat>, skip: nat)
    requires Inv(s, first, skip) && Enabled(s, step)
    ensures Inv(Apply(s, step, skip), first, skip)
  {
    match step
    case Store(p) => StoreKeeps(s, p, first, skip);
    case _ =>
      var t := Apply(s, step, skip);
      assert t.log == s.log && t.file == s.file;
      assert forall q :: 0 <= q < |t.procs| && q != step.p ==> t.procs[q] == s.procs[q];
  }

  lemma {:induction false} RunKeeps(s: State, steps: seq<Step>, first: Option<nat>, skip: nat)
    requires Inv(s, first, skip) && IsRun(s, steps, skip)
    ensures Inv(Exec(s, steps, skip), first, skip)
    decreases |steps|
  {
    if steps != [] {
      StepKeeps(s, steps[0], first, skip);
      RunKeeps(Apply(s, steps[0], skip), steps[1..], first, skip);
    }
  }

  ghost predicate Reachable(s: State, file: string, procs: nat, skip: nat) {
    exists steps :: IsRun(Start(file, procs), steps, skip) && s == Exec(Start(file, procs), steps, skip)
  }

  lemma {:induction false} ReachableInv(s: State, file: string, procs: nat, skip: nat)
    requires Reachable(s, file, procs, skip)
    ensures Inv(s, Current(file, skip), skip)
  {
    var steps :| IsRun(Start(file, procs), steps, skip) && s == Exec(Start(file, procs), steps, skip);
    StartInv(file, procs, skip);
    RunKeeps(Start(file, procs), steps, Current(file, skip), skip);
  }

  // ----- what every run keeps -----

  /** The numbers drawn are, in lock order, consecutive multiples of skip above the file's
      first number; the file always holds the one after the last. */
  lemma {:induction false} DrawnInOrder(s: State, file: string, procs: nat, skip: nat)
    requires Reachable(s, file, procs, skip) && skip > 0
    ensures Current(file, skip) == None ==> s.log == []
    ensures Current(file, skip).Some? ==> Current(s.file, skip) == Some(Nth(Current(file, skip).value, |s.log|, skip))
    ensures forall i, j :: 0 <= i < j < |s.log| ==> s.log[i].serial < s.log[j].serial
  {
    ReachableInv(s, file, procs, skip);
    forall i, j | 0 <= i < j < |s.log| ensures s.log[i].serial < s.log[j].serial {
      NthGrows(Current(file, skip).value, i, j, skip);
    }
  }

  /** No two processes are given the same number. */
  lemma {:induction false} NeverRepeats(s: State, file: string, procs: nat, skip: nat, p: nat, q: nat)
    requires Reachable(s, file, procs, skip) && skip > 0 && p < |s.procs| && q < |s.procs| && p != q
    requires Drawn(s.procs[p]) && Drawn(s.procs[q])
    ensures s.procs[p].serial != s.procs[q].serial
  {
    ReachableInv(s, file, procs, skip);
    DrawnInOrder(s, file, procs, skip);
    var i :| 0 <= i < |s.log| && s.log[i] == Entry(p, s.procs[p].serial);
    var j :| 0 <= j < |s.log| && s.log[j] == Entry(q, s.procs[q].serial);
    assert i < j || j < i;
  }

  /** At most one process is between locking and overwriting. */
  lemma {:induction false} MutualExclusion(s: State, file: string, procs: nat, skip: nat, p: nat, q: nat)
    requires Reachable(s, file, procs, skip) && p < |s.procs| && q < |s.procs|
    requires Holds(s.procs[p]) && Holds(s.procs[q])
    ensures p == q
  {
    ReachableInv(s, file, procs, skip);
  }

  lemma {:induction false} NthMultiple(i: nat, skip: nat)
    ensures Nth(skip, i, skip) == (i + 1) * skip
  {
    if i > 0 { NthMultiple(i - 1, skip); }
  }

  /** From an empty file the numbers drawn in any run are skip, twice skip, and so on. */
  lemma {:induction false} FromEmptyFile(s: State, procs: nat, skip: nat, i: nat)
    requires Reachable(s, "", procs, skip) && i < |s.log|
    ensures s.log[i].serial == (i + 1) * skip
  {
    ReachableInv(s, "", procs, skip);
    NthMultiple(i, skip);
  }

  /** From a file that holds n, they are n, n and skip, n and twice skip, and so on. */
  lemma {:induction false} FromNumber(s: State, n: nat, procs: nat, skip: nat, i: nat)
    requires Reachable(s, Written(n), procs, skip) && i < |s.log|
    ensures s.log[i].serial == n + i * skip
  {
    ReachableInv(s, Written(n), procs, skip);
    DecodeWritten(n, "");
    assert Written(n) + "" == Written(n);
    NthFrom(n, i, skip);
  }

  lemma {:induction false} NthFrom(n: nat, i: nat, skip: nat)
    ensures Nth(n, i, skip) == n + i * skip
  {
    if i > 0 { NthFrom(n, i - 1, skip); }
  }

  lemma {:induction false} NthSame(first: nat, i: nat)
    ensures Nth(first, i, 0) == first
  {
    if i > 0 { NthSame(first, i - 1); }
  }

  /** With skip 0 every process draws the same number in every run, so the configuration's check
      that it is positive is needed. */
  lemma {:induction false} ZeroSkipRepeats(s: State, file: string, procs: nat)
    requires Reachable(s, file, procs, 0)
    ensures forall i :: 0 <= i < |s.log| ==> Current(file, 0) == Some(s.log[i].serial)
    ensures s.log != [] ==> Current(s.file, 0) == Current(file, 0)
  {
    ReachableInv(s, file, procs, 0);
    if s.log != [] {
      var n := Current(file, 0).value;
      NthSame(n, |s.log|);
      forall i | 0 <= i < |s.log| ensures s.log[i].serial == n { NthSame(n, i); }
    }
  }

  ghost predicate ExactInv(s: State, skip: nat) {
    Canonical(s.file) && (s.log != [] ==> s.file == Written(s.log[|s.log| - 1].serial + skip))
  }

  lemma {:induction false} StoreExact(s: State, p: nat, skip: nat)
    requires Enabled(s, Store(p)) && Canonical(s.file) && Current(s.file, skip) == Some(s.procs[p].serial)
    ensures ExactInv(Apply(s, Store(p), skip), skip)
  {
    var c := s.procs[p].serial;
    NextExact(s.file, c, c + skip, skip);
  }

  lemma {:induction false} StepExact(s: State, step: Step, first: Option<nat>, skip: nat)
    requires Inv(s, first, skip) && ExactInv(s, skip) && Enabled(s, step)
    ensures ExactInv(Apply(s, step, skip), skip)
  {
    if step.Store? {
      LoadedNumber(s, step.p, first, skip);
      StoreExact(s, step.p, skip);
    }
  }

  lemma {:induction false} RunExact(s: State, steps: seq<Step>, first: Option<nat>, skip: nat)
    requires Inv(s, first, skip) && ExactInv(s, skip) && IsRun(s, steps, skip)
    ensures ExactInv(Exec(s, steps, skip), skip)
    decreases |steps|
  {
    if steps != [] {
      StepKeeps(s, steps[0], first, skip);
      StepExact(s, steps[0], first, skip);
      RunExact(Apply(s, steps[0], skip), steps[1..], first, skip);
    }
  }

  /** From an empty or canonical file the overwrite never leaves stale digits: the file is
      exactly the text of the next number. */
  lemma {:induction false} FileExact(s: State, file: string, procs: nat, skip: nat)
    requires Canonical(file) && Reachable(s, file, procs, skip)
    ensures Canonical(s.file)
    ensures s.log != [] ==> s.file == Written(s.log[|s.log| - 1].serial + skip)
  {
    var steps :| IsRun(Start(file, procs), steps, skip) && s == Exec(Start(file, procs), steps, skip);
    StartInv(file, procs, skip);
    RunExact(Start(file, procs), steps, Current(file, skip), skip);
  }

  // ----- the file as one call sees it -----

  /** What one wait for the lock comes back with. */
  datatype Reply = Granted | Denied | Interrupted

  predicate Answered(replies: seq<Reply>) { exists i :: 0 <= i < |replies| && replies[i] != Interrupted }

  function Answer(replies: seq<Reply>): Reply {
    if replies == [] then Interrupted else if replies[0] != Interrupted then replies[0] else Answer(replies[1..])
  }

  /** A process that is left alone draws the file's number. */
  lemma {:induction false} SoloRun(s: State, p: nat, c: nat, skip: nat)
    requires p < |s.procs| && s.procs[p] == Idle && s.lock == None && Current(s.file, skip) == Some(c)
    ensures var steps := [Acquire(p), Load(p), Store(p), Issue(p)];
      IsRun(s, steps, skip) &&
      Exec(s, steps, skip) ==
        State(Overwrite(s.file, Written(c + skip)), None, s.procs[p := Issued(c)], s.log + [Entry(p, c)])
  {
    var s1 := Apply(s, Acquire(p), skip);
    var s2 := Apply(s1, Load(p), skip);
    var s3 := Apply(s2, Store(p), skip);
    var s4 := Apply(s3, Issue(p), skip);
    assert s4.procs == s.procs[p := Issued(c)];
    var steps := [Acquire(p), Load(p), Store(p), Issue(p)];
    assert steps[1..] == [Load(p), Store(p), Issue(p)];
    assert steps[1..][1..] == [Store(p), Issue(p)];
    assert steps[1..][1..][1..] == [Issue(p)];
    assert steps[1..][1..][1..][1..] == [];
    assert IsRun(s3, steps[1..][1..][1..], skip) && Exec(s3, steps[1..][1..][1..], skip) == s4;
    assert IsRun(s2, steps[1..][1..], skip) && Exec(s2, steps[1..][1..], skip) == s4;
    assert IsRun(s1, steps[1..], skip) && Exec(s1, steps[1..], skip) == s4;
  }

  class SerialFile {
    var content: string
    var locked: bool

    constructor (content: string)
      ensures this.content == content && !locked
    {
      this.content, locked := content, false;
    }

    /** Wait for the lock, starting over after each interrupted wait. */
    method LockFile(replies: seq<Reply>) returns (ok: bool)
      requires !locked && Answered(replies)
      modifies this`locked
      ensures ok <==> Answer(replies) == Granted
      ensures locked == ok
    {
      var i := 0;
      assert replies[0..] == replies;
      while replies[i] == Interrupted
        invariant 0 <= i < |replies| && Answered(replies[i..]) && Answer(replies[i..]) == Answer(replies)
        decreases |replies| - i
      {
        assert replies[i..][1..] == replies[i + 1..];
        i := i + 1;
      }
      ok := replies[i] == Granted;
      locked := ok;
    }

    /** Draw the file's number and overwrite the file with its successor in the sequence. */
    method AssignSerialNumber(skip: nat, replies: seq<Reply>) returns (ok: bool, serial: nat)
      requires !locked && Answered(replies)
      modifies this
      ensures !locked
      ensures ok <==> Answer(replies) == Granted && Current(old(content), skip).Some?
      ensures ok ==> Current(old(content), skip) == Some(serial) && Current(content, skip) == Some(serial + skip)
      ensures ok ==> content == Overwrite(old(content), Written(serial + skip))
      ensures ok && Canonical(old(content)) ==> content == Written(serial + skip)
      ensures !ok ==> content == old(content)
    {
      ok := LockFile(replies);
      if !ok { return false, 0; }
      if content == "" {
        serial := skip;
      } else {
        var d := Decode(content);
        if d.None? {
          locked := false;
          return false, 0;
        }
        serial := d.value;
      }
      var text := Written(serial + skip);
      NextFile(content, serial + skip, skip);
      if Canonical(content) { NextExact(content, serial, serial + skip, skip); }
      content := Overwrite(content, text);
      locked := false;
    }
  }

  // ----- what a file may hold -----

  /** A line is continued after 35 bytes, that is 70 digits. */
  lemma BreakExact(i: nat)
    ensures Break(i) == if i > 0 && i % 35 == 0 then "\\\n" else ""
  {
  }

  function LowerHex(c: char): char { if 'A' <= c <= 'F' then c - 'A' + 'a' else c }

  function Lower(s: string): (t: string)
    ensures |t| == |s| && forall i :: 0 <= i < |s| ==> t[i] == LowerHex(s[i])
  {
    if s == "" then "" else [LowerHex(s[0])] + Lower(s[1..])
  }

  lemma LowerValue(c: char)
    ensures HexValue(LowerHex(c)) == HexValue(c)
    ensures (LowerHex(c) == '\\' <==> c == '\\') && (LowerHex(c) == '\n' <==> c == '\n')
  {
  }

  lemma LowerTail(s: string, n: nat)
    requires n <= |s|
    ensures Lower(s)[n..] == Lower(s[n..])
  {
  }

  /** Digits are read in either case. */
  lemma {:induction false} ReadEitherCase(s: string, acc: nat)
    ensures ReadHex(Lower(s), acc) == ReadHex(s, acc)
    decreases |s|
  {
    Continued(s);
    Continued(Lower(s));
    if s != "" { LowerValue(s[0]); }
    if |s| >= 2 {
      LowerValue(s[1]);
      LowerTail(s, 2);
      if s[0] == '\\' && s[1] == '\n' {
        ReadEitherCase(s[2..], acc);
      } else if HexValue(s[0]).Some? && HexValue(s[1]).Some? {
        ReadEitherCase(s[2..], acc * 256 + HexValue(s[0]).value * 16 + HexValue(s[1]).value);
      }
    }
  }

  /** A file is a number exactly when it starts with whole bytes: an odd digit spoils it, and a
      file that starts with anything else holds none. */
  lemma {:induction false} DecodeExact(bs: seq<nat>, tail: string)
    requires AllBytes(bs) && (Stops(tail) || Odd(tail))
    ensures Decode(Text(bs, 0) + tail) == if bs == [] || Odd(tail) then None else Some(Fold(bs, 0))
  {
    ReadTail(bs, 0, tail, 0);
    if bs == [] {
      assert Text(bs, 0) + tail == tail;
    } else {
      HexRoundTrip(bs[0] / 16);
      assert (Text(bs, 0) + tail)[0] == Hex(bs[0] / 16);
    }
  }
}
