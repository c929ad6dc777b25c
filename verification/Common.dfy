/** Values shared by the modules. */
module Common {

  datatype Option<+T> = None | Some(value: T)

  /** The index of the first c in s, or |s|. */
  function IndexOf(s: string, c: char): (i: nat)
    ensures i <= |s|
    ensures c !in s[..i]
    ensures i < |s| ==> s[i] == c
  {
    if s == [] || s[0] == c then 0
    else
      var i := IndexOf(s[1..], c);
      assert s[..1 + i] == [s[0]] + s[1..][..i];
      1 + i
  }

  /** The parts of s before and after the first c in it. */
  function Split(s: string, c: char): (r: Option<(string, string)>)
    ensures r.Some? ==> |r.value.0| + 1 + |r.value.1| == |s|
  {
    if s == "" then None
    else if s[0] == c then Some(("", s[1..]))
    else
      var r := Split(s[1..], c);
      if r.None? then None else Some(([s[0]] + r.value.0, r.value.1))
  }

  lemma {:induction false} SplitAt(a: string, c: char, b: string)
    requires c !in a
    ensures Split(a + [c] + b, c) == Some((a, b))
  {
    var s := a + [c] + b;
    if a == "" {
      assert s == [c] + b;
    } else {
      assert s[1..] == a[1..] + [c] + b;
      SplitAt(a[1..], c, b);
      assert a == [a[0]] + a[1..];
    }
  }

  lemma {:induction false} SplitNone(s: string, c: char)
    requires c !in s
    ensures Split(s, c) == None
  {
    if s != "" { SplitNone(s[1..], c); }
  }

  lemma {:induction false} SplitParts(s: string, c: char)
    ensures match Split(s, c)
      case None => c !in s
      case Some((a, b)) => s == a + [c] + b
  {
    if s != "" && s[0] != c { SplitParts(s[1..], c); }
  }
}
