/** Finding a field in a protocol message: the scanning loop over the whole text is a
    line-by-line lookup. */
module Lookup {
  import opened Common

  // ----- substrings -----

  predicate OccursAt(s: string, key: string, i: nat)
    decreases |key|
  {
    i + |key| <= |s| && (key == "" || (s[i] == key[0] && OccursAt(s, key[1..], i + 1)))
  }

  /** The first occurrence of key in s at or after p. */
  function FindFrom(s: string, key: string, p: nat): (r: Option<nat>)
    requires p <= |s|
    ensures r.Some? ==> p <= r.value && r.value + |key| <= |s|
    decreases |s| - p
  {
    if OccursAt(s, key, p) then Some(p)
    else if p == |s| then None
    else FindFrom(s, key, p + 1)
  }

  lemma {:induction false} FindIsFirst(s: string, key: string, p: nat)
    requires p <= |s|
    ensures var r := FindFrom(s, key, p);
      && (r.Some? ==> OccursAt(s, key, r.value) && forall i: nat :: p <= i < r.value ==> !OccursAt(s, key, i))
      && (r.None? ==> forall i: nat :: p <= i ==> !OccursAt(s, key, i))
    decreases |s| - p
  {
    if !OccursAt(s, key, p) && p < |s| { FindIsFirst(s, key, p + 1); }
  }

  /** What follows the first occurrence of key, if there is one. */
  function After(line: string, key: string): Option<string> {
    match FindFrom(line, key, 0)
    case None => None
    case Some(i) => Some(line[i + |key|..])
  }

  // ----- lines -----

  predicate OneLine(s: string) { '\n' !in s }

  /** The end of the line that position p is on. */
  function LineEnd(s: string, p: nat): (e: nat)
    requires p <= |s|
    ensures p <= e <= |s| && (e < |s| ==> s[e] == '\n')
    decreases |s| - p
  {
    if p == |s| || s[p] == '\n' then p else LineEnd(s, p + 1)
  }

  /** The values of key on the lines from position p on: per line, what follows the first
      occurrence of the key. */
  function Values(s: string, key: string, p: nat): seq<string>
    requires p <= |s|
    decreases |s| - p
  {
    var e := LineEnd(s, p);
    Cons(After(s[p..e], key), if e == |s| then [] else Values(s, key, e + 1))
  }

  function Cons(x: Option<string>, xs: seq<string>): seq<string> {
    if x.Some? then [x.value] + xs else xs
  }

  function Join(parts: seq<string>): string {
    if parts == [] then ""
    else if |parts| == 1 then parts[0]
    else parts[0] + "\n" + Join(parts[1..])
  }

  datatype Conversion = Missing | Multiple | Value(text: string)

  function Conclude(values: seq<string>, multiple: bool): Conversion {
    if values == [] then Missing
    else if |values| > 1 && !multiple then Multiple
    else Value(Join(values))
  }

  /** The reference lookup. */
  function Convert(s: string, key: string, multiple: bool): Conversion {
    Conclude(Values(s, key, 0), multiple)
  }

  // ----- the scan visits the lines in order -----

  lemma SliceOccurs(s: string, key: string, p: nat, e: nat, i: nat)
    requires p <= e <= |s|
    ensures OccursAt(s[p..e], key, i) <==> OccursAt(s, key, p + i) && p + i + |key| <= e
  {
  }

  lemma OccursChar(s: string, key: string, i: nat, e: nat)
    requires OccursAt(s, key, i) && i <= e < i + |key|
    ensures s[e] == key[e - i]
  {
    assert s[i + (e - i)] == key[e - i];
  }

  /** A key without a line break does not straddle one. */
  lemma NoStraddle(s: string, key: string, e: nat, i: nat)
    requires OneLine(key) && e < |s| && s[e] == '\n' && OccursAt(s, key, i)
    ensures i + |key| <= e || e < i
  {
    if i <= e < i + |key| { OccursChar(s, key, i, e); }
  }

  lemma FindUnique(s: string, key: string, p: nat, i: nat)
    requires p <= i && OccursAt(s, key, i) && forall j: nat :: p <= j < i ==> !OccursAt(s, key, j)
    ensures FindFrom(s, key, p) == Some(i)
  {
    FindIsFirst(s, key, p);
  }

  /** The part of a line after its first occurrence. */
  lemma {:induction false} AfterFound(s: string, key: string, p: nat, e: nat, i: nat)
    requires p <= |s| && e == LineEnd(s, p) && FindFrom(s, key, p) == Some(i) && i + |key| <= e
    ensures After(s[p..e], key) == Some(s[i + |key|..e])
  {
    var line := s[p..e];
    FindIsFirst(s, key, p);
    SliceOccurs(s, key, p, e, i - p);
    forall j: nat | j < i - p ensures !OccursAt(line, key, j) {
      SliceOccurs(s, key, p, e, j);
      assert !OccursAt(s, key, p + j);
    }
    FindUnique(line, key, 0, i - p);
    assert line[i - p + |key|..] == s[i + |key|..e];
  }

  lemma {:induction false} AfterMissing(s: string, key: string, p: nat, e: nat)
    requires p <= e <= |s|
    requires forall i: nat :: p <= i && i + |key| <= e ==> !OccursAt(s, key, i)
    ensures After(s[p..e], key) == None
  {
    var line := s[p..e];
    forall j: nat ensures !OccursAt(line, key, j) {
      SliceOccurs(s, key, p, e, j);
    }
    FindIsFirst(line, key, 0);
  }

  /** Going on at the end of a line is going on with the next line. */
  lemma {:induction false} ValuesFromBreak(s: string, key: string, e: nat)
    requires key != "" && e <= |s|
    ensures e == |s| ==> Values(s, key, e) == []
    ensures e < |s| && s[e] == '\n' ==> Values(s, key, e) == Values(s, key, e + 1)
  {
    assert s[e..e] == "";
    AfterMissing(s, key, e, e);
  }

  lemma FindSame(s: string, key: string, p: nat, q: nat, i: nat)
    requires p <= q <= i && q <= |s| && FindFrom(s, key, p) == Some(i)
    ensures FindFrom(s, key, q) == Some(i)
  {
    FindIsFirst(s, key, p);
    FindUnique(s, key, q, i);
  }

  lemma {:induction false} LineEndSame(s: string, p: nat, q: nat)
    requires p <= q <= |s| && q <= LineEnd(s, p)
    ensures LineEnd(s, q) == LineEnd(s, p)
    decreases q - p
  {
    if p < q { LineEndSame(s, p + 1, q); }
  }

  lemma {:induction false} LineEndAt(s: string, p: nat, e: nat)
    requires p <= e < |s| && s[e] == '\n' && forall i :: p <= i < e ==> s[i] != '\n'
    ensures LineEnd(s, p) == e
    decreases e - p
  {
    if p < e { LineEndAt(s, p + 1, e); }
  }

  lemma {:induction false} ScanHit(s: string, key: string, p: nat, i: nat)
    requires key != "" && p <= |s| && FindFrom(s, key, p) == Some(i) && i + |key| <= LineEnd(s, p)
    ensures var v := i + |key|; var e := LineEnd(s, v);
      Values(s, key, p) == [s[v..e]] + Values(s, key, e)
  {
    var e, v := LineEnd(s, p), i + |key|;
    var rest := if e == |s| then [] else Values(s, key, e + 1);
    assert Values(s, key, p) == Cons(After(s[p..e], key), rest);
    assert After(s[p..e], key) == Some(s[v..e]) by { AfterFound(s, key, p, e, i); }
    assert LineEnd(s, v) == e by { LineEndSame(s, p, v); }
    assert Values(s, key, e) == rest by { ValuesFromBreak(s, key, e); }
  }

  lemma {:induction false} ScanMiss(s: string, key: string, p: nat, i: nat)
    requires p <= |s| && FindFrom(s, key, p) == Some(i) && LineEnd(s, p) < i
    ensures Values(s, key, p) == Values(s, key, LineEnd(s, p) + 1)
    ensures FindFrom(s, key, LineEnd(s, p) + 1) == Some(i)
  {
    LineMissed(s, key, p, i);
    FindSame(s, key, p, LineEnd(s, p) + 1, i);
  }

  lemma {:induction false} LineMissed(s: string, key: string, p: nat, i: nat)
    requires p <= |s| && FindFrom(s, key, p) == Some(i) && LineEnd(s, p) < i
    ensures LineEnd(s, p) < |s| && After(s[p..LineEnd(s, p)], key) == None
  {
    FindIsFirst(s, key, p);
    AfterMissing(s, key, p, LineEnd(s, p));
  }

  /** The first occurrence gives the first value; the scan goes on at the end of its line. */
  lemma {:induction false} ScanStep(s: string, key: string, p: nat, i: nat)
    requires key != "" && OneLine(key) && p <= |s| && FindFrom(s, key, p) == Some(i)
    ensures var v := i + |key|; var e := LineEnd(s, v);
      Values(s, key, p) == [s[v..e]] + Values(s, key, e)
    decreases |s| - p
  {
    var e := LineEnd(s, p);
    FindIsFirst(s, key, p);
    if e < |s| { NoStraddle(s, key, e, i); }
    if i + |key| <= e {
      ScanHit(s, key, p, i);
    } else {
      ScanMiss(s, key, p, i);
      ScanStep(s, key, e + 1, i);
    }
  }

  lemma {:induction false} NoOccurrence(s: string, key: string, p: nat)
    requires p <= |s| && FindFrom(s, key, p) == None
    ensures Values(s, key, p) == []
    decreases |s| - p
  {
    var e := LineEnd(s, p);
    FindIsFirst(s, key, p);
    AfterMissing(s, key, p, e);
    if e < |s| {
      FindIsFirst(s, key, e + 1);
      NoOccurrence(s, key, e + 1);
    }
  }

  lemma {:induction false} JoinAppend(a: seq<string>, x: string)
    ensures Join(a + [x]) == if a == [] then x else Join(a) + "\n" + x
  {
    if a == [] {
      assert a + [x] == [x];
    } else if |a| == 1 {
      assert (a + [x])[1..] == [x];
    } else {
      JoinAppend(a[1..], x);
      assert (a + [x])[1..] == a[1..] + [x];
      assert a[0] + "\n" + (Join(a[1..]) + "\n" + x) == (a[0] + "\n" + Join(a[1..])) + "\n" + x;
    }
  }

  lemma Regroup(a: seq<string>, x: string, b: seq<string>)
    ensures a + ([x] + b) == (a + [x]) + b
  {
  }

  /** Search the rest of the buffer for the key and delimit the value behind it. */
  method NextValue(buffer: string, varname: string, p: nat) returns (found: bool, start: nat, end: nat)
    requires varname != "" && OneLine(varname) && p <= |buffer|
    ensures found ==> p < start <= end <= |buffer|
    ensures found ==> Values(buffer, varname, p) == [buffer[start..end]] + Values(buffer, varname, end)
    ensures !found ==> Values(buffer, varname, p) == []
  {
    var at := FindFrom(buffer, varname, p);
    if at.None? {
      NoOccurrence(buffer, varname, p);
      return false, p, p;
    }
    ScanStep(buffer, varname, p, at.value);
    found, start := true, at.value + |varname|;
    end := LineEnd(buffer, start);
  }

  /** The extraction loop: append each value found to the line, and go on behind it. */
  method ConvertMessage(buffer: string, varname: string, multiple: bool) returns (code: int, line: string)
    requires varname != "" && OneLine(varname)
    ensures match Convert(buffer, varname, multiple)
      case Missing => code == -2 && line == ""
      case Multiple => code == -1 && line == ""
      case Value(text) => code == |text| && line == text
  {
    ghost var done, all := [], Values(buffer, varname, 0);
    ghost var rest := all;
    var p := 0;
    line := "";
    var foundOne := false;
    while true
      invariant p <= |buffer|
      invariant rest == Values(buffer, varname, p) && all == done + rest
      invariant (foundOne <==> done != []) && (|done| > 1 ==> multiple)
      invariant line == Join(done)
      decreases |buffer| - p
    {
      var found, start, end := NextValue(buffer, varname, p);
      if !found {
        break;
      }
      if foundOne {
        if !multiple {
          return -1, "";
        }
        line := line + "\n";
      }
      line := line + buffer[start..end];
      JoinAppend(done, buffer[start..end]);
      Regroup(done, buffer[start..end], Values(buffer, varname, end));
      done, rest := done + [buffer[start..end]], Values(buffer, varname, end);
      foundOne := true;
      p := end;
    }
    assert all == done;
    code := if foundOne then |line| else -2;
  }

  // ----- messages built from fields -----

  datatype Field = Field(key: string, value: string)

  predicate Tidy(f: Field) { OneLine(f.key) && OneLine(f.value) }

  predicate AllTidy(fields: seq<Field>) { forall i :: 0 <= i < |fields| ==> Tidy(fields[i]) }

  function Render(fields: seq<Field>): string {
    if fields == [] then "" else fields[0].key + fields[0].value + "\n" + Render(fields[1..])
  }

  /** The line of an optional value, and the lines of several values. */
  function Optionally(key: string, o: Option<string>): string { if o.Some? then key + o.value + "\n" else "" }

  function Each(key: string, values: seq<string>): string {
    if values == [] then "" else key + values[0] + "\n" + Each(key, values[1..])
  }

  lemma {:induction false} EachOne(key: string, value: string)
    ensures Each(key, [value]) == key + value + "\n"
  {
    assert [value][1..] == [];
  }

  /** Per field, what follows the first occurrence of key in it. */
  function FieldHits(fields: seq<Field>, key: string): seq<string> {
    if fields == [] then []
    else Cons(After(fields[0].key + fields[0].value, key), FieldHits(fields[1..], key))
  }

  /** b is what t holds from position d on. */
  predicate Tail(t: string, d: nat, b: string) {
    d <= |t| && t[d..] == b
  }

  lemma {:induction false} ShiftLineEnd(t: string, d: nat, b: string, p: nat)
    requires Tail(t, d, b) && p <= |b|
    ensures LineEnd(t, d + p) == d + LineEnd(b, p)
    decreases |b| - p
  {
    if p < |b| {
      assert b[p] == t[d + p];
      if b[p] != '\n' { ShiftLineEnd(t, d, b, p + 1); }
    }
  }

  lemma {:induction false} ShiftStep(t: string, d: nat, b: string, key: string, p: nat, e: nat)
    requires p <= |b| && |t| == d + |b| && LineEnd(b, p) == e && LineEnd(t, d + p) == d + e
    requires t[d + p..d + e] == b[p..e]
    requires e < |b| ==> Values(t, key, d + e + 1) == Values(b, key, e + 1)
    ensures Values(t, key, d + p) == Values(b, key, p)
  {
  }

  lemma {:induction false} ShiftValues(t: string, d: nat, b: string, key: string, p: nat)
    requires Tail(t, d, b) && p <= |b|
    ensures Values(t, key, d + p) == Values(b, key, p)
    decreases |b| - p
  {
    var e := LineEnd(b, p);
    ShiftLineEnd(t, d, b, p);
    ShiftSlice(t, d, b, p, e);
    if e < |b| { ShiftValues(t, d, b, key, e + 1); }
    ShiftStep(t, d, b, key, p, e);
  }

  lemma ShiftSlice(t: string, d: nat, b: string, p: nat, e: nat)
    requires Tail(t, d, b) && p <= e <= |b|
    ensures t[d + p..d + e] == b[p..e]
  {
    forall i | 0 <= i < e - p ensures t[d + p..d + e][i] == b[p..e][i] { assert b[p + i] == t[d + (p + i)]; }
  }

  lemma {:induction false} FirstLine(line: string, rest: string)
    requires OneLine(line)
    ensures LineEnd(line + "\n" + rest, 0) == |line|
  {
    var s := line + "\n" + rest;
    assert s[|line|] == '\n';
    assert forall i :: 0 <= i < |line| ==> s[i] == line[i];
    LineEndAt(s, 0, |line|);
  }

  lemma {:induction false} ValuesCons(line: string, rest: string, key: string)
    requires OneLine(line)
    ensures Values(line + "\n" + rest, key, 0) == Cons(After(line, key), Values(rest, key, 0))
  {
    var s := line + "\n" + rest;
    FirstLine(line, rest);
    assert s[0..|line|] == line;
    ShiftValues(s, |line| + 1, rest, key, 0);
  }

  /** A rendered message is looked up field by field. */
  lemma {:induction false} RenderValues(fields: seq<Field>, key: string)
    requires key != "" && AllTidy(fields)
    ensures Values(Render(fields), key, 0) == FieldHits(fields, key)
  {
    if fields == [] {
      ValuesFromBreak("", key, 0);
    } else {
      ValuesCons(fields[0].key + fields[0].value, Render(fields[1..]), key);
      RenderValues(fields[1..], key);
    }
  }

  // ----- keys -----

  /** A key has exactly one '=', at its end. */
  predicate IsKey(k: string) {
    k != "" && k[|k| - 1] == '=' && '=' !in k[..|k| - 1] && OneLine(k)
  }

  predicate IsSuffix(a: string, b: string) {
    |a| <= |b| && OccursAt(b, a, |b| - |a|)
  }

  predicate Contains(s: string, key: string) { FindFrom(s, key, 0).Some? }

  /** An occurrence of a key in a line is at the end of the line's key or inside its value. */
  lemma {:induction false} KeyInLine(q: string, k: string, v: string, i: nat)
    requires IsKey(q) && IsKey(k) && OccursAt(k + v, q, i)
    ensures i + |q| == |k| || |k| <= i
  {
    var end := i + |q| - 1;
    OccursBound(k + v, q, i);
    OccursChar(k + v, q, i, end);
    if end < |k| {
      assert k[end] == '=';
    } else if i < |k| {
      OccursChar(k + v, q, i, |k| - 1);
    }
  }

  lemma OccursBound(s: string, key: string, i: nat)
    requires OccursAt(s, key, i)
    ensures i + |key| <= |s|
  {
  }

  lemma {:induction false} OccursInTail(k: string, v: string, q: string, i: nat)
    ensures OccursAt(k + v, q, |k| + i) <==> OccursAt(v, q, i)
  {
    SliceOccurs(k + v, q, |k|, |k + v|, i);
    assert (k + v)[|k|..|k + v|] == v;
  }

  lemma {:induction false} OccursInHead(k: string, v: string, q: string, i: nat)
    requires i + |q| <= |k|
    ensures OccursAt(k + v, q, i) <==> OccursAt(k, q, i)
  {
    SliceOccurs(k + v, q, 0, |k|, i);
    assert (k + v)[0..|k|] == k;
  }

  lemma {:induction false} OccursInSelf(k: string)
    ensures OccursAt(k, k, 0)
  {
    SelfSuffix(k, 0);
    assert k[0..] == k;
  }

  lemma {:induction false} SelfSuffix(k: string, i: nat)
    requires i <= |k|
    ensures OccursAt(k, k[i..], i)
    decreases |k| - i
  {
    if i < |k| {
      SelfSuffix(k, i + 1);
      assert k[i..][1..] == k[i + 1..];
    }
  }

  function FromEnd(s: string, i: nat): char
    requires 1 <= i <= |s|
  {
    s[|s| - i]
  }

  lemma SuffixChar(a: string, b: string, i: nat)
    requires IsSuffix(a, b) && 1 <= i <= |a|
    ensures |a| <= |b| && FromEnd(a, i) == FromEnd(b, i)
  {
    OccursChar(b, a, |b| - |a|, |b| - i);
  }

  /** An occurrence is an equal slice. */
  lemma {:induction false} OccursSlice(s: string, key: string, i: nat)
    ensures OccursAt(s, key, i) <==> i + |key| <= |s| && s[i..i + |key|] == key
    decreases key
  {
    if key != "" && i < |s| {
      OccursSlice(s, key[1..], i + 1);
      if i + |key| <= |s| {
        assert s[i..i + |key|] == [s[i]] + s[i + 1..i + |key|];
        assert key == [key[0]] + key[1..];
      }
    }
  }

  /** Suffixes survive a common ending. */
  lemma {:induction false} SuffixCommon(a: string, b: string, t: string)
    ensures IsSuffix(a + t, b + t) <==> IsSuffix(a, b)
  {
    if |a| <= |b| {
      var d := |b| - |a|;
      OccursSlice(b + t, a + t, d);
      OccursSlice(b, a, d);
      assert (b + t)[d..d + |a + t|] == b[d..] + t;
      assert b[d..d + |a|] == b[d..];
      assert (a + t)[..|a|] == a && (b[d..] + t)[..|a|] == b[d..];
    }
  }

  lemma {:induction false} SuffixSlice(a: string, b: string)
    ensures IsSuffix(a, b) <==> |a| <= |b| && b[|b| - |a|..] == a
  {
    if |a| <= |b| { OccursSlice(b, a, |b| - |a|); }
  }

  lemma {:induction false} SelfIsSuffix(a: string)
    ensures IsSuffix(a, a)
  {
    OccursInSelf(a);
  }

  /** Looking up a line's own key gives its value. */
  lemma {:induction false} OwnKey(k: string, v: string)
    ensures After(k + v, k) == Some(v)
  {
    OccursInSelf(k);
    OccursInHead(k, v, k, 0);
    FindUnique(k + v, k, 0, 0);
    assert (k + v)[|k|..] == v;
  }

  /** Looking up another key, no suffix of the line's key, searches the value alone. */
  lemma {:induction false} OtherKey(q: string, k: string, v: string)
    requires IsKey(q) && IsKey(k) && !IsSuffix(q, k)
    ensures After(k + v, q) == After(v, q)
  {
    var line := k + v;
    FindIsFirst(line, q, 0);
    FindIsFirst(v, q, 0);
    forall i: nat | OccursAt(line, q, i) ensures |k| <= i && OccursAt(v, q, i - |k|) {
      KeyInLine(q, k, v, i);
      if i + |q| == |k| { OccursInHead(k, v, q, i); }
      OccursInTail(k, v, q, i - |k|);
    }
    if FindFrom(v, q, 0).Some? {
      var j := FindFrom(v, q, 0).value;
      OccursInTail(k, v, q, j);
      FindUnique(line, q, 0, |k| + j);
      assert line[|k| + j + |q|..] == v[j + |q|..];
    }
  }

  /** What a lookup of q sees in a field: the whole value under its own key, else what
      follows q inside the value. */
  function Seen(f: Field, q: string): Option<string> {
    if f.key == q then Some(f.value) else After(f.value, q)
  }

  function AllSeen(fields: seq<Field>, q: string): seq<string> {
    if fields == [] then [] else Cons(Seen(fields[0], q), AllSeen(fields[1..], q))
  }

  ghost predicate SuffixFree(fields: seq<Field>, q: string) {
    forall i :: 0 <= i < |fields| ==> IsKey(fields[i].key) && (fields[i].key == q || !IsSuffix(q, fields[i].key))
  }

  lemma {:induction false} KeyedHits(fields: seq<Field>, q: string)
    requires IsKey(q) && SuffixFree(fields, q)
    ensures FieldHits(fields, q) == AllSeen(fields, q)
  {
    if fields != [] {
      var f := fields[0];
      if f.key == q { OwnKey(q, f.value); } else { OtherKey(q, f.key, f.value); }
      KeyedHits(fields[1..], q);
    }
  }

  /** With suffix-free keys a rendered message is looked up by key, plus whatever key texts
      its values contain. */
  lemma {:induction false} RenderedLookup(fields: seq<Field>, q: string, multiple: bool)
    requires AllTidy(fields) && IsKey(q) && SuffixFree(fields, q)
    ensures Convert(Render(fields), q, multiple) == Conclude(AllSeen(fields, q), multiple)
  {
    RenderValues(fields, q);
    KeyedHits(fields, q);
  }
}
