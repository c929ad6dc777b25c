/** Reading records and messages from a byte stream (gsi_socket.c). */
module Framing {

  newtype byte = x: int | 0 <= x < 256

  // ----- records -----

  const HEADER: nat := 5

  /** A record header starts at p and is one the reader accepts. */
  predicate GoodHeader(s: seq<byte>, p: nat)
    requires p + HEADER <= |s|
  {
    20 <= s[p] <= 26 && s[p + 1] == 3
  }

  function DataLength(s: seq<byte>, p: nat): nat
    requires p + HEADER <= |s|
  {
    s[p + 3] as nat * 256 + s[p + 4] as nat
  }

  /** A whole accepted record starts at p. */
  predicate RecordAt(s: seq<byte>, p: nat) {
    p + HEADER <= |s| && GoodHeader(s, p) && p + HEADER + DataLength(s, p) <= |s|
  }

  /** The bytes from p to e are whole accepted records, one after the other. */
  predicate Records(s: seq<byte>, p: nat, e: nat)
    decreases e - p
  {
    p == e || (p < e && RecordAt(s, p) && Records(s, p + HEADER + DataLength(s, p), e))
  }

  lemma {:induction false} RecordsAppend(s: seq<byte>, p: nat, m: nat)
    requires p <= m && Records(s, p, m) && RecordAt(s, m)
    ensures Records(s, p, m + HEADER + DataLength(s, m))
    decreases m - p
  {
    if p < m {
      RecordsWithin(s, p + HEADER + DataLength(s, p), m);
      RecordsAppend(s, p + HEADER + DataLength(s, p), m);
    }
  }

  lemma RecordsWithin(s: seq<byte>, p: nat, e: nat)
    requires Records(s, p, e)
    ensures p <= e
  {
  }

  /** Two ways to cut the same bytes into records agree on where a record starts. */
  lemma {:induction false} RecordsSplit(s: seq<byte>, p: nat, m: nat, e: nat)
    requires Records(s, p, m) && Records(s, p, e) && p <= m <= e
    ensures Records(s, m, e)
    decreases m - p
  {
    if p < m {
      var n := p + HEADER + DataLength(s, p);
      RecordsWithin(s, n, m);
      RecordsSplit(s, n, m, e);
    }
  }

  lemma {:induction false} RecordsJoin(s: seq<byte>, p: nat, m: nat, e: nat)
    requires Records(s, p, m) && Records(s, m, e)
    ensures Records(s, p, e)
    decreases m - p
  {
    RecordsWithin(s, p, m);
    RecordsWithin(s, m, e);
    if p < m { RecordsJoin(s, p + HEADER + DataLength(s, p), m, e); }
  }

  /** The pieces one after the other. */
  function Concat<T>(pieces: seq<seq<T>>): seq<T> {
    if pieces == [] then [] else pieces[0] + Concat(pieces[1..])
  }

  lemma {:induction false} ConcatAppend<T>(a: seq<seq<T>>, b: seq<seq<T>>)
    ensures Concat(a + b) == Concat(a) + Concat(b)
  {
    if a == [] {
      assert a + b == b;
    } else {
      assert (a + b)[1..] == a[1..] + b;
      ConcatAppend(a[1..], b);
    }
  }

  lemma {:induction false} ConcatPush<T>(a: seq<seq<T>>, x: seq<T>)
    ensures Concat(a + [x]) == Concat(a) + x
  {
    ConcatAppend(a, [x]);
    assert Concat([x]) == x + Concat([x][1..]);
  }

  lemma HeaderBytes(s: seq<byte>, p: nat, header: seq<byte>)
    requires p + HEADER <= |s| && header == s[p..p + HEADER]
    ensures header[0] == s[p] && header[1] == s[p + 1] && header[3] == s[p + 3] && header[4] == s[p + 4]
  {
  }

  // ----- records as they are written -----

  /** A record's type, minor version and body. */
  datatype Record = Record(kind: byte, minor: byte, body: seq<byte>)

  predicate Writable(r: Record) { 20 <= r.kind <= 26 && |r.body| < 0x1_0000 }

  /** Type, version 3 and minor version, the length in two bytes, the higher first, and the body. */
  function Write(r: Record): (bs: seq<byte>)
    requires Writable(r)
    ensures |bs| == HEADER + |r.body|
  {
    [r.kind, 3, r.minor, (|r.body| / 0x100) as byte, (|r.body| % 0x100) as byte] + r.body
  }

  predicate WrittenAt(s: seq<byte>, p: nat, r: Record) {
    Writable(r) && p + HEADER + |r.body| <= |s| && s[p..p + HEADER + |r.body|] == Write(r)
  }

  lemma {:induction false} WrittenHeader(s: seq<byte>, p: nat, r: Record)
    requires WrittenAt(s, p, r)
    ensures GoodHeader(s, p) && DataLength(s, p) == |r.body|
  {
    var w := s[p..p + HEADER + |r.body|];
    assert s[p] == w[0] && s[p + 1] == w[1] && s[p + 3] == w[3] && s[p + 4] == w[4];
  }

  /** Whole accepted records are exactly the bytes that are written for some record. */
  lemma {:induction false} RecordExact(s: seq<byte>, p: nat)
    ensures RecordAt(s, p) <==> exists r :: WrittenAt(s, p, r)
  {
    if RecordAt(s, p) {
      var n := DataLength(s, p);
      var e := p + HEADER + n;
      var r := Record(s[p], s[p + 2], s[p + HEADER..e]);
      assert n / 0x100 == s[p + 3] as nat && n % 0x100 == s[p + 4] as nat;
      assert s[p..e] == s[p..p + HEADER] + s[p + HEADER..e];
      assert s[p..p + HEADER] == [s[p], s[p + 1], s[p + 2], s[p + 3], s[p + 4]];
      assert WrittenAt(s, p, r);
    }
    if r :| WrittenAt(s, p, r) { WrittenHeader(s, p, r); }
  }

  predicate AllWritable(rs: seq<Record>) { forall i :: 0 <= i < |rs| ==> Writable(rs[i]) }

  function WriteAllRecords(rs: seq<Record>): seq<byte>
    requires AllWritable(rs)
  {
    if rs == [] then [] else Write(rs[0]) + WriteAllRecords(rs[1..])
  }

  lemma CutAt(s: seq<byte>, p: nat, w: seq<byte>, rest: seq<byte>)
    requires p <= |s| && s[p..] == w + rest
    ensures p + |w| <= |s| && s[p..p + |w|] == w && s[p + |w|..] == rest
  {
    assert s[p..p + |w|] == s[p..][..|w|] && s[p + |w|..] == s[p..][|w|..];
  }

  lemma {:induction false} WrittenFirst(s: seq<byte>, p: nat, r: Record, rest: seq<byte>)
    requires Writable(r) && p <= |s| && s[p..] == Write(r) + rest
    ensures WrittenAt(s, p, r) && RecordAt(s, p)
    ensures p + HEADER + DataLength(s, p) == p + HEADER + |r.body| <= |s| && s[p + HEADER + |r.body|..] == rest
  {
    CutAt(s, p, Write(r), rest);
    WrittenHeader(s, p, r);
  }

  /** A stream of written records, from p on, is whole records. */
  lemma {:induction false} WrittenRecords(s: seq<byte>, p: nat, rs: seq<Record>)
    requires AllWritable(rs) && p <= |s| && s[p..] == WriteAllRecords(rs)
    ensures Records(s, p, |s|)
    decreases |rs|
  {
    if rs != [] {
      WrittenFirst(s, p, rs[0], WriteAllRecords(rs[1..]));
      WrittenRecords(s, p + HEADER + |rs[0].body|, rs[1..]);
    }
  }

  datatype Failure = IoError | Eof | BadHeader | TooLong

  // ----- the socket -----

  /** A socket delivers a fixed stream in pieces of any size, and may fail at any call. */
  class Socket {
    const stream: seq<byte>
    var taken: nat
    var output: seq<byte>

    ghost predicate Valid() reads this { taken <= |stream| }

    constructor (stream: seq<byte>)
      ensures Valid() && this.stream == stream && taken == 0 && output == []
    {
      this.stream := stream;
      taken := 0;
      output := [];
    }

    /** One read call: any non-empty piece of what is left, nothing at end of stream, or -1. */
    method Read(n: nat) returns (r: int, data: seq<byte>)
      requires Valid() && n > 0
      modifies this`taken
      ensures Valid() && -1 <= r <= n
      ensures taken == old(taken) + |data| && data == stream[old(taken)..taken]
      ensures r == -1 ==> data == []
      ensures r >= 0 ==> r == |data| && (r == 0 <==> old(taken) == |stream|)
    {
      data := [];
      if * { return -1, data; }
      var left := |stream| - taken;
      if left == 0 { return 0, data; }
      var k: nat :| 1 <= k <= n && k <= left;
      data := stream[taken..taken + k];
      taken := taken + k;
      r := k;
    }

    /** One write call: any non-empty prefix is accepted, or none and -1, or none at all. */
    method Write(data: seq<byte>) returns (r: int)
      requires data != []
      modifies this`output
      ensures -1 <= r <= |data|
      ensures output == old(output) + data[..if r < 0 then 0 else r]
    {
      if * { r := -1; } else { r :| 0 <= r <= |data|; }
      output := output + data[..if r < 0 then 0 else r];
    }

    /** Read exactly n bytes, whatever the sizes of the pieces. */
    method ReadAll(n: nat) returns (error: Failure, ok: bool, data: seq<byte>)
      requires Valid()
      modifies this`taken
      ensures Valid() && old(taken) <= taken
      ensures ok ==> |data| == n && taken == old(taken) + n && data == stream[old(taken)..taken]
      ensures !ok ==> error == IoError || (error == Eof && taken == |stream| && taken < old(taken) + n)
    {
      data, error, ok := [], IoError, false;
      while |data| < n
        invariant Valid() && |data| <= n && taken == old(taken) + |data| && data == stream[old(taken)..taken]
        decreases n - |data|
      {
        var r, piece := Read(n - |data|);
        if r == -1 { return IoError, false, []; }
        if r == 0 { return Eof, false, []; }
        assert stream[old(taken)..taken] == data + piece;
        data := data + piece;
      }
      ok := true;
    }

    /** Write every byte, whatever the sizes of the pieces. */
    method WriteAll(data: seq<byte>) returns (ok: bool)
      modifies this`output
      ensures ok ==> output == old(output) + data
      ensures exists k :: 0 <= k <= |data| && output == old(output) + data[..k]
    {
      var done := 0;
      ok := false;
      assert output == old(output) + data[..0];
      while done < |data|
        invariant 0 <= done <= |data| && output == old(output) + data[..done]
      {
        var r := Write(data[done..]);
        if r <= 0 { return; }
        assert data[..done + r] == data[..done] + data[done..][..r];
        done := done + r;
      }
      assert data[..done] == data;
      ok := true;
    }

    /** Read the record at the current position unless it is malformed or, after the
        sofar bytes already read, too long. */
    method ReadRecord(sofar: nat, maxTokenLen: int) returns (ok: bool, error: Failure, inHeader: bool, data: seq<byte>)
      requires Valid()
      modifies this`taken
      ensures Valid() && old(taken) <= taken
      ensures ok ==> RecordAt(stream, old(taken)) && taken == old(taken) + HEADER + DataLength(stream, old(taken))
      ensures ok ==> data == stream[old(taken)..taken] && (maxTokenLen > 0 ==> sofar + |data| <= maxTokenLen)
      ensures !ok && error == BadHeader ==> taken == old(taken) + HEADER && !GoodHeader(stream, old(taken))
      ensures !ok && error == TooLong ==> taken == old(taken) + HEADER && GoodHeader(stream, old(taken))
      ensures !ok && error == TooLong ==> 0 < maxTokenLen < sofar + HEADER + DataLength(stream, old(taken))
      ensures !ok && error == Eof ==> taken == |stream| && !RecordAt(stream, old(taken))
      ensures !ok && error == Eof ==> (inHeader <==> taken < old(taken) + HEADER)
    {
      var code, got, header := ReadAll(HEADER);
      if !got { return false, code, true, []; }
      HeaderBytes(stream, old(taken), header);
      if !(20 <= header[0] <= 26) || header[1] != 3 { return false, BadHeader, true, []; }
      var length := header[3] as nat * 256 + header[4] as nat;
      if maxTokenLen > 0 && sofar + HEADER + length > maxTokenLen { return false, TooLong, true, []; }
      var code', got', body := ReadAll(length);
      if !got' { return false, code', false, []; }
      assert stream[old(taken)..taken] == header + body;
      return true, IoError, false, header + body;
    }

    /** Read one or more whole records: those that have arrived, as far as select reports more.
        An end of stream inside a later header ends the token; elsewhere it is a failure. */
    method ReadToken(maxTokenLen: int) returns (ok: bool, error: Failure, token: seq<byte>, ghost end: nat)
      requires Valid()
      modifies this`taken
      ensures Valid() && old(taken) <= end <= taken && Records(stream, old(taken), end)
      ensures ok ==> token == stream[old(taken)..end] && token != []
      ensures ok && maxTokenLen > 0 ==> |token| <= maxTokenLen
      ensures ok && taken != end ==> taken == |stream| && taken < end + HEADER
      ensures !ok && error == BadHeader ==> taken == end + HEADER && !GoodHeader(stream, end)
      ensures !ok && error == TooLong ==> taken == end + HEADER && GoodHeader(stream, end)
      ensures !ok && error == TooLong ==> 0 < maxTokenLen < end - old(taken) + HEADER + DataLength(stream, end)
      ensures !ok && error == Eof ==> taken == |stream| && !RecordAt(stream, end)
      ensures !ok && error == Eof ==> end == old(taken) || taken >= end + HEADER
    {
      token, error, ok, end := [], IoError, false, taken;
      var more := true;
      while more
        invariant Valid() && old(taken) <= end == taken && Records(stream, old(taken), end)
        invariant token == stream[old(taken)..end] && (more || token != [])
        invariant maxTokenLen > 0 ==> |token| <= maxTokenLen
        decreases |stream| - taken, more
      {
        var got, code, inHeader, data := ReadRecord(|token|, maxTokenLen);
        if !got {
          return inHeader && code == Eof && token != [], code, token, end;
        }
        RecordsAppend(stream, old(taken), end);
        assert stream[old(taken)..taken] == token + data;
        token := token + data;
        end := taken;
        if * { return false, IoError, [], end; }
        more := *;
      }
      ok := true;
    }

    /** Call ReadToken until it fails. The tokens are the stream's records, in order, up to
        some record; when the rest of the stream is whole records and only its end stops the
        calls, they are all of it. */
    method ReadTokens(maxTokenLen: int) returns (tokens: seq<seq<byte>>, error: Failure, ghost end: nat)
      requires Valid()
      modifies this`taken
      ensures Valid() && old(taken) <= end <= taken && Records(stream, old(taken), end)
      ensures Concat(tokens) == stream[old(taken)..end]
      ensures error == Eof && Records(stream, old(taken), |stream|) ==> end == |stream|
    {
      tokens, end := [], taken;
      while true
        invariant Valid() && old(taken) <= end <= taken && Records(stream, old(taken), end)
        invariant Concat(tokens) == stream[old(taken)..end]
        invariant end != taken ==> taken == |stream| && taken < end + HEADER
        decreases |stream| - taken
      {
        ghost var at := taken;
        var ok, code, token, last := ReadToken(maxTokenLen);
        if !ok {
          if code == Eof && Records(stream, old(taken), |stream|) {
            RecordsSplit(stream, old(taken), end, |stream|);
            NoStub(stream, end);
            RecordsSplit(stream, at, last, |stream|);
          }
          return tokens, code, end;
        }
        RecordsJoin(stream, old(taken), end, last);
        ConcatPush(tokens, token);
        assert stream[old(taken)..last] == stream[old(taken)..end] + token;
        tokens, end := tokens + [token], last;
      }
    }
  }

  lemma NoStub(s: seq<byte>, e: nat)
    requires e <= |s| && Records(s, e, |s|)
    ensures e == |s| || e + HEADER <= |s|
  {
  }

  // ----- splitting coalesced messages -----

  const VERSION: seq<byte> := [86, 69, 82, 83, 73, 79, 78]

  predicate Starts(b: seq<byte>) { |b| >= 7 && b[..7] == VERSION }

  /** The seven letters of the word VERSION come first. */
  lemma StartsExact(b: seq<byte>)
    ensures Starts(b) <==> [0x56, 0x45, 0x52, 0x53, 0x49, 0x4F, 0x4E] <= b
  {
  }

  /** The index of the first NUL in b, or |b|. */
  function Nul(b: seq<byte>): (i: nat)
    ensures i <= |b| && (i < |b| ==> b[i] == 0)
  {
    if b == [] || b[0] == 0 then 0 else 1 + Nul(b[1..])
  }

  /** How much of a buffer one call returns: a buffer that starts with VERSION is cut behind its first NUL. */
  function TokenLength(b: seq<byte>): (n: nat)
    ensures n <= |b| && (b != [] ==> n > 0)
  {
    if Starts(b) && Nul(b) + 1 < |b| then Nul(b) + 1 else |b|
  }

  /** What successive calls make of one buffer. */
  function Tokens(b: seq<byte>): seq<seq<byte>>
    decreases |b|
  {
    if b == [] then [] else [b[..TokenLength(b)]] + Tokens(b[TokenLength(b)..])
  }

  function AllTokens(buffers: seq<seq<byte>>): seq<seq<byte>> {
    if buffers == [] then [] else Tokens(buffers[0]) + AllTokens(buffers[1..])
  }

  /** Splitting neither loses nor invents bytes. */
  lemma {:induction false} TokensConcat(b: seq<byte>)
    ensures Concat(Tokens(b)) == b
    decreases |b|
  {
    if b != [] {
      var n := TokenLength(b);
      TokensConcat(b[n..]);
      assert Tokens(b)[1..] == Tokens(b[n..]);
      assert b == b[..n] + b[n..];
    }
  }

  lemma {:induction false} AllTokensConcat(buffers: seq<seq<byte>>)
    ensures Concat(AllTokens(buffers)) == Concat(buffers)
  {
    if buffers != [] {
      TokensConcat(buffers[0]);
      AllTokensConcat(buffers[1..]);
      ConcatAppend(Tokens(buffers[0]), AllTokens(buffers[1..]));
    }
  }

  /** A message ends with its only NUL. */
  predicate Message(m: seq<byte>) { m != [] && m[|m| - 1] == 0 && 0 !in m[..|m| - 1] }

  predicate Messages(ms: seq<seq<byte>>) { forall i :: 0 <= i < |ms| ==> Message(ms[i]) }

  lemma {:induction false} NulIn(m: seq<byte>, rest: seq<byte>)
    requires Message(m)
    ensures Nul(m + rest) == |m| - 1
  {
    if |m| > 1 {
      assert m[0] in m[..|m| - 1];
      assert (m + rest)[1..] == m[1..] + rest;
      assert m[1..][..|m| - 2] == m[..|m| - 1][1..];
      NulIn(m[1..], rest);
    }
  }

  lemma {:induction false} StartsIn(m: seq<byte>, rest: seq<byte>)
    requires Message(m)
    ensures Starts(m + rest) <==> Starts(m)
  {
    var b := m + rest;
    if |m| >= 7 {
      assert b[..7] == m[..7];
    } else if |b| >= 7 {
      assert b[..7][|m| - 1] == 0;
    }
  }

  /** What becomes of messages coalesced into one buffer: leading VERSION messages come out
      one by one; from the first other message on, everything comes out as one token. */
  function Merged(ms: seq<seq<byte>>): seq<seq<byte>> {
    if |ms| <= 1 then ms
    else if Starts(ms[0]) then [ms[0]] + Merged(ms[1..])
    else [Concat(ms)]
  }

  lemma {:induction false} TokensMerged(ms: seq<seq<byte>>)
    requires Messages(ms)
    ensures Tokens(Concat(ms)) == Merged(ms)
  {
    if ms != [] {
      var m, rest := ms[0], Concat(ms[1..]);
      var b := m + rest;
      NulIn(m, rest);
      StartsIn(m, rest);
      if |ms| == 1 {
        assert b == m && ms == [m];
        assert b[|m|..] == [] && b[..|m|] == m;
      } else {
        assert ms[1] == ms[1..][0] && rest != [];
        if Starts(m) {
          TokensMerged(ms[1..]);
          assert b[..|m|] == m && b[|m|..] == rest;
        } else {
          assert b[..|b|] == b && b[|b|..] == [];
        }
      }
    }
  }

  /** Every message but the last starts with VERSION. */
  predicate Separable(ms: seq<seq<byte>>) { forall i :: 0 <= i < |ms| - 1 ==> Starts(ms[i]) }

  lemma {:induction false} MergedCount(ms: seq<seq<byte>>)
    ensures |Merged(ms)| <= |ms|
    ensures |Merged(ms)| == |ms| <==> Separable(ms)
    ensures Separable(ms) ==> Merged(ms) == ms
  {
    if |ms| > 1 {
      var rest := ms[1..];
      assert Separable(ms) <==> Starts(ms[0]) && Separable(rest) by {
        if Separable(ms) {
          forall i | 0 <= i < |rest| - 1 ensures Starts(rest[i]) { assert rest[i] == ms[i + 1]; }
        }
        if Starts(ms[0]) && Separable(rest) {
          forall i | 0 <= i < |ms| - 1 ensures Starts(ms[i]) { if i > 0 { assert ms[i] == rest[i - 1]; } }
        }
      }
      if Starts(ms[0]) {
        MergedCount(rest);
        assert ms == [ms[0]] + rest;
      }
    }
  }

  function Buffers(groups: seq<seq<seq<byte>>>): seq<seq<byte>> {
    if groups == [] then [] else [Concat(groups[0])] + Buffers(groups[1..])
  }

  predicate AllMessages(groups: seq<seq<seq<byte>>>) { forall i :: 0 <= i < |groups| ==> Messages(groups[i]) }

  predicate AllSeparable(groups: seq<seq<seq<byte>>>) { forall i :: 0 <= i < |groups| ==> Separable(groups[i]) }

  lemma {:induction false} GroupCount(groups: seq<seq<seq<byte>>>)
    requires AllMessages(groups)
    ensures |AllTokens(Buffers(groups))| <= |Concat(groups)|
    ensures |AllTokens(Buffers(groups))| == |Concat(groups)| <==> AllSeparable(groups)
    ensures AllSeparable(groups) ==> AllTokens(Buffers(groups)) == Concat(groups)
  {
    if groups != [] {
      TokensMerged(groups[0]);
      MergedCount(groups[0]);
      GroupCount(groups[1..]);
      assert AllSeparable(groups) <==> Separable(groups[0]) && AllSeparable(groups[1..]);
      assert Buffers(groups)[1..] == Buffers(groups[1..]);
    }
  }

  /** Messages coalesced in groups come out as they went in if and only if within each group
      every message but the last starts with VERSION. */
  lemma {:induction false} GroupedRoundTrip(groups: seq<seq<seq<byte>>>)
    requires AllMessages(groups)
    ensures AllTokens(Buffers(groups)) == Concat(groups) <==> AllSeparable(groups)
  {
    GroupCount(groups);
  }

  function PendingTokens(saved: seq<byte>, incoming: seq<seq<byte>>): seq<seq<byte>> {
    Tokens(saved) + AllTokens(incoming)
  }

  lemma {:induction false} PendingNext(incoming: seq<seq<byte>>)
    requires incoming != []
    ensures PendingTokens([], incoming) == PendingTokens(incoming[0], incoming[1..])
    ensures Concat(incoming) == incoming[0] + Concat(incoming[1..])
  {
  }

  lemma Assoc<T>(a: seq<T>, b: seq<T>, c: seq<T>)
    ensures (a + b) + c == a + (b + c)
  {
  }

  lemma {:induction false} PendingCut(token: seq<byte>, rest: seq<byte>, buffer: seq<byte>, incoming: seq<seq<byte>>)
    requires Tokens(buffer) == [token] + Tokens(rest) && token + rest == buffer
    ensures PendingTokens(buffer, incoming) == [token] + PendingTokens(rest, incoming)
    ensures buffer + Concat(incoming) == token + rest + Concat(incoming)
  {
    Assoc([token], Tokens(rest), AllTokens(incoming));
  }

  /** A connection over a sequence of unwrapped network buffers, with what a call left over. */
  class Connection {
    var incoming: seq<seq<byte>>
    var saved: seq<byte>

    constructor (buffers: seq<seq<byte>>)
      ensures incoming == buffers && saved == []
    {
      incoming, saved := buffers, [];
    }

    ghost function Pending(): seq<seq<byte>> reads this { PendingTokens(saved, incoming) }

    static method SafeStrlen(s: seq<byte>) returns (i: nat)
      ensures i == Nul(s)
    {
      i := 0;
      assert s[0..] == s;
      while i < |s|
        invariant i <= |s| && Nul(s) == i + Nul(s[i..])
      {
        if s[i] == 0 { return; }
        assert s[i..][1..] == s[i + 1..];
        i := i + 1;
      }
    }

    /** The saved buffer, else the next network buffer. */
    method NextBuffer() returns (buffer: seq<byte>)
      modifies this
      ensures saved == []
      ensures buffer == if old(saved) != [] then old(saved) else if old(incoming) == [] then [] else old(incoming)[0]
      ensures incoming == old(incoming)[if old(saved) != [] || old(incoming) == [] then 0 else 1..]
      ensures PendingTokens(buffer, incoming) == old(Pending())
      ensures buffer + Concat(incoming) == old(saved) + Concat(old(incoming))
    {
      buffer := saved;
      saved := [];
      if buffer == [] && incoming != [] {
        PendingNext(incoming);
        buffer := incoming[0];
        incoming := incoming[1..];
      }
    }

    /** Cut a buffer behind its first message when it starts with VERSION. */
    static method Cut(buffer: seq<byte>) returns (token: seq<byte>, rest: seq<byte>)
      requires buffer != []
      ensures token != [] && token + rest == buffer
      ensures Tokens(buffer) == [token] + Tokens(rest)
    {
      token, rest := buffer, [];
      if |buffer| >= 7 && buffer[..7] == VERSION {
        var n := SafeStrlen(buffer);
        if |buffer| > n + 1 {
          token, rest := buffer[..n + 1], buffer[n + 1..];
        }
      }
      assert token == buffer[..TokenLength(buffer)] && rest == buffer[TokenLength(buffer)..];
    }

    /** Return one token: from the saved buffer first, else from the next network buffer. An
        empty or missing network buffer is an error. */
    method ReadToken() returns (ok: bool, token: seq<byte>)
      modifies this
      ensures ok <==> old(saved) != [] || (old(incoming) != [] && old(incoming)[0] != [])
      ensures ok ==> token != [] && old(Pending()) == [token] + Pending()
      ensures ok ==> token + saved + Concat(incoming) == old(saved) + Concat(old(incoming))
      ensures !ok ==> saved == []
      ensures incoming == old(incoming)[if old(saved) != [] || old(incoming) == [] then 0 else 1..]
    {
      var buffer := NextBuffer();
      if buffer == [] { return false, []; }
      var rest;
      token, rest := Cut(buffer);
      PendingCut(token, rest, buffer, incoming);
      saved := rest;
      ok := true;
    }

    /** Call ReadToken until it fails: with no empty buffer on the way, the calls return
        exactly the tokens of everything pending. */
    method ReadAllTokens() returns (tokens: seq<seq<byte>>)
      requires [] !in incoming
      modifies this
      ensures saved == [] && incoming == []
      ensures tokens == old(Pending())
    {
      tokens := [];
      assert [] + Pending() == Pending();
      var ok := true;
      while ok
        invariant [] !in incoming && old(Pending()) == tokens + Pending()
        invariant !ok ==> saved == [] && incoming == []
        decreases |Pending()|, ok
      {
        var got, token := ReadToken();
        ok := got;
        if ok {
          Assoc(tokens, [token], Pending());
          tokens := tokens + [token];
        }
      }
    }
  }

  /** Reading what was written: with no limit and no failure but the end of the stream, the tokens
      are the written bytes, whatever the sizes of the pieces read. */
  method ReadWritten(s: Socket, ghost rs: seq<Record>) returns (tokens: seq<seq<byte>>, error: Failure)
    requires s.Valid() && s.taken == 0 && AllWritable(rs) && s.stream == WriteAllRecords(rs)
    modifies s`taken
    ensures error == Eof ==> Concat(tokens) == WriteAllRecords(rs)
    ensures Concat(tokens) <= WriteAllRecords(rs)
  {
    assert s.stream[0..] == s.stream;
    WrittenRecords(s.stream, 0, rs);
    ghost var end;
    tokens, error, end := s.ReadTokens(0);
    if error == Eof { assert s.stream[0..end] == s.stream; }
  }
}
