/** The block exchange of the option parser: Euclid's algorithm and the
    cycle-following rotation built on it.

    A block pair is described relative to its first slot: slots 0..nn hold the
    skipped non-options and slots nn..n (n == nn + no) the options after them. */
module Rotation {

  // ----- divisibility -----

  ghost function Times(k: int, d: int): int { k * d }

  ghost predicate Divides(d: int, n: int) {
    exists k :: Times(k, d) == n
  }

  lemma DividesCombination(d: int, a: int, x: int, b: int, y: int)
    requires Divides(d, a) && Divides(d, b)
    ensures Divides(d, a * x + b * y)
  {
    var j :| Times(j, d) == a;
    var k :| Times(k, d) == b;
    calc {
      a * x + b * y;
      (j * d) * x + (k * d) * y;
      (j * x + k * y) * d;
      Times(j * x + k * y, d);
    }
  }

  /** Euclid's algorithm, with the Bezout coefficients of the result as ghosts. */
  method Gcd(m: int, n: int) returns (g: int, ghost x: int, ghost y: int)
    requires m > 0 && n > 0
    ensures 0 < g <= n
    ensures Divides(g, m) && Divides(g, n)
    ensures m * x + n * y == g
    ensures forall d :: Divides(d, m) && Divides(d, n) ==> Divides(d, g)
  {
    var a, b := m, n;
    ghost var ax, ay := 1, 0;
    x, y := 0, 1;
    ghost var q;
    var c := a % b;
    assert Euclid(m, n, a, b) by { EuclidStart(m, n); }
    while c != 0
      invariant 0 < b <= n && 0 <= a && c == a % b
      invariant a == m * ax + n * ay && b == m * x + n * y
      invariant Euclid(m, n, a, b)
      decreases b
    {
      q := a / b;
      assert c == a - q * b;
      EuclidStep(m, n, a, b, q);
      CombineStep(m, n, a, ax, ay, b, x, y, q);
      ax, ay, x, y := x, y, ax - q * x, ay - q * y;
      a := b;
      b := c;
      c := a % b;
    }
    g := b;
    assert Divides(b, a) && Divides(b, b) by {
      assert Times(a / b, b) == a && Times(1, b) == b;
    }
    forall d | Divides(d, m) && Divides(d, n) ensures Divides(d, g) {
      DividesCombination(d, m, x, n, y);
    }
  }

  /** Whatever divides the current pair divides the original pair. */
  ghost predicate Euclid(m: int, n: int, a: int, b: int) {
    forall d :: Divides(d, a) && Divides(d, b) ==> Divides(d, m) && Divides(d, n)
  }

  lemma EuclidStart(m: int, n: int)
    ensures Euclid(m, n, m, n)
  {
  }

  lemma EuclidStep(m: int, n: int, a: int, b: int, q: int)
    requires Euclid(m, n, a, b)
    ensures Euclid(m, n, b, a - q * b)
  {
    forall d | Divides(d, b) && Divides(d, a - q * b) ensures Divides(d, a) && Divides(d, b) {
      DividesCombination(d, b, q, a - q * b, 1);
      assert b * q + (a - q * b) * 1 == a;
    }
  }

  lemma CombineStep(m: int, n: int, a: int, ax: int, ay: int, b: int, x: int, y: int, q: int)
    requires a == m * ax + n * ay && b == m * x + n * y
    ensures a - q * b == m * (ax - q * x) + n * (ay - q * y)
  {
    calc {
      m * (ax - q * x) + n * (ay - q * y);
      (m * ax + n * ay) - (m * (q * x) + n * (q * y));
      (m * ax + n * ay) - q * (m * x + n * y);
    }
  }

  // ----- the cycles -----

  /** The slot an argument in slot p has to move to. */
  function Target(p: int, nn: int, no: int): int {
    if p >= nn then p - nn else p + no
  }

  /** The slot from which slot p is to be filled. */
  function Source(p: int, nn: int, no: int): int {
    if p < no then p + nn else p - no
  }

  /** The k-th slot on the cycle that starts at c. */
  ghost function Orbit(c: int, k: nat, nn: int, no: int): int {
    if k == 0 then c else Target(Orbit(c, k - 1, nn, no), nn, no)
  }

  /** How often the first k steps from c wrapped around. */
  ghost function Laps(c: int, k: nat, nn: int, no: int): int {
    if k == 0 then 0
    else Laps(c, k - 1, nn, no) + (if Orbit(c, k - 1, nn, no) >= nn then 0 else 1)
  }

  lemma OneMore(k: int, m: int)
    ensures (k + 1) * m == k * m + m
  {
  }

  lemma {:induction false} OrbitForm(c: int, k: nat, nn: int, no: int)
    requires 0 < nn && 0 < no && 0 <= c < nn + no
    ensures 0 <= Orbit(c, k, nn, no) < nn + no
    ensures Orbit(c, k, nn, no) == c - k * nn + Laps(c, k, nn, no) * (nn + no)
  {
    if k > 0 {
      OrbitForm(c, k - 1, nn, no);
      OneMore(k - 1, nn);
      OneMore(Laps(c, k - 1, nn, no), nn + no);
    }
  }

  lemma MultipleIsFar(m: int, n: int)
    requires n > 0
    ensures m >= 1 ==> m * n >= n
    ensures m <= -1 ==> m * n <= -n
  {
  }

  lemma SameResidue(a: int, b: int, m: int, n: int)
    requires 0 <= a < n && 0 <= b < n && a == b + m * n
    ensures a == b
  {
    MultipleIsFar(m, n);
  }

  /** g is the gcd of the block lengths: len steps of size nn make a whole
      number of turns, and no fewer do. */
  ghost predicate CycleShape(nn: int, no: int, g: int, len: int, x: int, y: int) {
    && 0 < nn && 0 < no && 0 < g <= no && 0 < len
    && g * len == nn + no
    && Divides(g, nn)
    && nn * x + no * y == g
  }

  /** A number d of steps that makes whole turns is a multiple of len. */
  lemma TurnsAreMultiples(d: int, m: int, nn: int, no: int, g: int, len: int, x: int, y: int)
    requires CycleShape(nn, no, g, len, x, y)
    requires d * nn == m * (nn + no)
    ensures d == (m * (x - y) + d * y) * len
  {
    var n, t := nn + no, m * (x - y) + d * y;
    assert d * g == t * n by { SplitTurns(d, m, nn, no, x, y); }
    Regroup(t, g, len);
    CancelFactor(d, t * len, g);
  }

  lemma SplitTurns(d: int, m: int, nn: int, no: int, x: int, y: int)
    requires d * nn == m * (nn + no)
    ensures d * (nn * x + no * y) == (m * (x - y) + d * y) * (nn + no)
  {
    calc {
      d * (nn * x + no * y);
      { SplitIdentity(d, nn, no, x, y); }
      (d * nn) * (x - y) + (d * y) * (nn + no);
      (m * (nn + no)) * (x - y) + (d * y) * (nn + no);
      { FactorIdentity(m, nn + no, x - y, d * y); }
      (m * (x - y) + d * y) * (nn + no);
    }
  }

  lemma SplitIdentity(d: int, nn: int, no: int, x: int, y: int)
    ensures d * (nn * x + no * y) == (d * nn) * (x - y) + (d * y) * (nn + no)
  {
  }

  lemma FactorIdentity(m: int, n: int, z: int, w: int)
    ensures (m * n) * z + w * n == (m * z + w) * n
  {
  }

  lemma Regroup(t: int, g: int, len: int)
    ensures t * (g * len) == (t * len) * g
  {
  }

  lemma CancelFactor(a: int, b: int, g: int)
    requires g > 0 && a * g == b * g
    ensures a == b
  {
  }

  lemma EqualForms(c: int, j: int, lj: int, k: int, lk: int, nn: int, n: int)
    requires c - j * nn + lj * n == c - k * nn + lk * n
    ensures (k - j) * nn == (lk - lj) * n
  {
  }

  /** Two equal slots on an orbit are a whole number of turns apart. */
  lemma OrbitMeets(c: int, j: nat, k: nat, nn: int, no: int)
    requires 0 < nn && 0 < no && 0 <= c < nn + no
    requires Orbit(c, j, nn, no) == Orbit(c, k, nn, no)
    ensures (k - j) * nn == (Laps(c, k, nn, no) - Laps(c, j, nn, no)) * (nn + no)
  {
    OrbitForm(c, j, nn, no);
    OrbitForm(c, k, nn, no);
    EqualForms(c, j, Laps(c, j, nn, no), k, Laps(c, k, nn, no), nn, nn + no);
  }

  lemma OrbitDistinct(c: int, j: nat, k: nat, nn: int, no: int, g: int, len: int, x: int, y: int)
    requires CycleShape(nn, no, g, len, x, y) && 0 <= c < nn + no
    requires j < k < j + len
    ensures Orbit(c, j, nn, no) != Orbit(c, k, nn, no)
  {
    if Orbit(c, j, nn, no) == Orbit(c, k, nn, no) {
      OrbitMeets(c, j, k, nn, no);
      var m := Laps(c, k, nn, no) - Laps(c, j, nn, no);
      TooShort(k - j, m, nn, no, g, len, x, y);
    }
  }

  lemma TooShort(d: int, m: int, nn: int, no: int, g: int, len: int, x: int, y: int)
    requires CycleShape(nn, no, g, len, x, y) && d > 0 && d * nn == m * (nn + no)
    ensures d >= len
  {
    TurnsAreMultiples(d, m, nn, no, g, len, x, y);
    MultipleIsFar(m * (x - y) + d * y, len);
  }

  /** len steps of size nn make Divides(g, nn) many whole turns. */
  lemma WholeTurns(nn: int, no: int, g: int, len: int, x: int, y: int) returns (h: int)
    requires CycleShape(nn, no, g, len, x, y)
    ensures len * nn == h * (nn + no)
  {
    h :| Times(h, g) == nn;
    Regroup(h, g, len);
    Regroup(len, h, g);
  }

  lemma Apart(a: int, b: int, n: int)
    ensures (a - b) * n == a * n - b * n
  {
  }

  lemma OrbitReturns(c: int, nn: int, no: int, len: nat, h: int)
    requires 0 < nn && 0 < no && 0 <= c < nn + no && len * nn == h * (nn + no)
    ensures Orbit(c, len, nn, no) == c
  {
    OrbitForm(c, len, nn, no);
    var l := Laps(c, len, nn, no);
    Apart(l, h, nn + no);
    SameResidue(Orbit(c, len, nn, no), c, l - h, nn + no);
  }

  /** Every slot congruent to c modulo g lies on the cycle of c. */
  lemma OrbitCovers(c: int, p: int, w: int, nn: int, no: int, g: int, len: int, x: int, y: int)
    returns (k: nat)
    requires CycleShape(nn, no, g, len, x, y)
    requires 0 <= c < nn + no && 0 <= p < nn + no && c - p == w * g
    ensures 1 <= k <= len && Orbit(c, k, nn, no) == p
  {
    var h := WholeTurns(nn, no, g, len, x, y);
    var k0 := (x - y) * w;
    var q := (k0 - 1) / len;
    k := 1 + (k0 - 1) % len;
    assert k == k0 - q * len;
    StepsBack(x, y, w, nn, no);
    OrbitForm(c, k, nn, no);
    var l := Laps(c, k, nn, no);
    assert k * nn == k0 * nn - (q * h) * (nn + no) by { ReduceSteps(k0, q, len, nn, h, nn + no); }
    GatherTurns(l, q * h, y * w, nn + no);
    SameResidue(Orbit(c, k, nn, no), p, l + q * h + y * w, nn + no);
  }

  lemma GatherTurns(a: int, b: int, c: int, n: int)
    ensures a * n + b * n + c * n == (a + b + c) * n
  {
  }

  lemma ReduceSteps(k0: int, q: int, len: int, nn: int, h: int, n: int)
    requires len * nn == h * n
    ensures (k0 - q * len) * nn == k0 * nn - (q * h) * n
  {
    assert (k0 - q * len) * nn == k0 * nn - q * (len * nn);
  }

  lemma StepsBack(x: int, y: int, w: int, nn: int, no: int)
    ensures ((x - y) * w) * nn == w * (nn * x + no * y) - (y * w) * (nn + no)
  {
  }

  lemma OrbitResidue(c: int, k: nat, nn: int, no: int, g: int)
    requires 0 < nn && 0 < no && 0 <= c < nn + no
    requires Divides(g, nn) && Divides(g, no)
    ensures Divides(g, Orbit(c, k, nn, no) - c)
  {
    OrbitForm(c, k, nn, no);
    var l := Laps(c, k, nn, no);
    DividesCombination(g, nn, l - k, no, l);
    assert nn * (l - k) + no * l == l * (nn + no) - k * nn;
  }

  /** The cycle started at slot nn + i consists of the slots with residue i. */
  lemma ResidueClass(p: int, nn: int, i: int, g: int)
    requires 0 <= i < g && Divides(g, nn)
    ensures Divides(g, p - (nn + i)) <==> p % g == i
  {
    var h :| Times(h, g) == nn;
    var u, r := p / g, p % g - i;
    assert Times(u - h, g) == g * u - nn;
    if r == 0 {
      assert Times(u - h, g) == p - (nn + i);
    } else if Divides(g, p - (nn + i)) {
      var t :| Times(t, g) == p - (nn + i);
      assert r == (t - (u - h)) * g;
      MultipleIsFar(t - (u - h), g);
    }
  }

  lemma SameClass(p: int, q: int, m: int, g: int)
    requires 0 < g && q == p + m * g
    ensures q % g == p % g
  {
    var u, v := p / g, q / g;
    Apart(u + m, v, g);
    Apart(u + m, m, g);
    MultipleIsFar(u + m - v, g);
  }

  lemma SourceResidue(p: int, nn: int, no: int, g: int)
    requires 0 < g && Divides(g, nn) && Divides(g, no)
    ensures Source(p, nn, no) % g == p % g
  {
    var h :| Times(h, g) == nn;
    var l :| Times(l, g) == no;
    if p < no {
      SameClass(p, p + nn, h, g);
    } else {
      SameClass(p - no, p, l, g);
    }
  }

  // ----- cycles as values -----

  /** The slots visited by the first j steps along orb. */
  ghost function Visited(orb: seq<int>, j: nat): set<int>
    requires j < |orb|
  {
    if j == 0 then {} else Visited(orb, j - 1) + {orb[j]}
  }

  lemma {:induction false} VisitedMember(orb: seq<int>, j: nat, p: int)
    requires j < |orb|
    ensures p in Visited(orb, j) <==> exists k :: 1 <= k <= j && orb[k] == p
  {
    if j > 0 { VisitedMember(orb, j - 1, p); }
  }

  ghost predicate Linked(orb: seq<int>, k: int, nn: int, no: int)
    requires 0 <= k < |orb| - 1
  {
    orb[k] == Source(orb[k + 1], nn, no)
  }

  /** orb lists the slots of the cycle from c back to c. */
  ghost predicate IsCycle(orb: seq<int>, c: int, len: int, nn: int, no: int) {
    && 0 < nn && 0 < no && 0 < len && |orb| == len + 1 && orb[0] == orb[len] == c
    && (forall k :: 0 <= k <= len ==> 0 <= orb[k] < nn + no)
    && (forall k :: 0 <= k < len ==> Linked(orb, k, nn, no))
    && (forall j, k :: 0 <= j < k < len ==> orb[j] != orb[k])
  }

  lemma CycleFrom(c: int, nn: int, no: int, g: int, len: int, x: int, y: int) returns (orb: seq<int>)
    requires CycleShape(nn, no, g, len, x, y) && 0 <= c < nn + no
    ensures IsCycle(orb, c, len, nn, no)
    ensures forall k :: 0 <= k <= len ==> orb[k] == Orbit(c, k, nn, no)
  {
    orb := seq(len + 1, k requires 0 <= k => Orbit(c, k, nn, no));
    var h := WholeTurns(nn, no, g, len, x, y);
    OrbitReturns(c, nn, no, len, h);
    forall k | 0 <= k <= len ensures 0 <= orb[k] < nn + no {
      OrbitForm(c, k, nn, no);
    }
    forall j, k | 0 <= j < k < len ensures orb[j] != orb[k] {
      OrbitDistinct(c, j, k, nn, no, g, len, x, y);
    }
    forall k | 0 <= k < len ensures Linked(orb, k, nn, no) {
      assert orb[k + 1] == Target(orb[k], nn, no);
    }
  }

  /** cls numbers the cycles: slot p lies on cycle cls[p], together with its source. */
  ghost predicate IsNumbering(cls: seq<int>, g: int, nn: int, no: int) {
    && 0 < nn && 0 < no && |cls| == nn + no
    && (forall p :: 0 <= p < nn + no ==> 0 <= cls[p] < g)
    && (forall p {:trigger Source(p, nn, no)} :: 0 <= p < nn + no ==> cls[Source(p, nn, no)] == cls[p])
  }

  lemma Numbering(nn: int, no: int, g: int) returns (cls: seq<int>)
    requires 0 < nn && 0 < no && 0 < g && Divides(g, nn) && Divides(g, no)
    ensures IsNumbering(cls, g, nn, no)
    ensures forall p :: 0 <= p < nn + no ==> cls[p] == p % g
  {
    cls := seq(nn + no, p requires 0 <= p => p % g);
    forall p | 0 <= p < nn + no ensures 0 <= cls[p] < g && cls[Source(p, nn, no)] == cls[p] {
      SourceResidue(p, nn, no, g);
    }
  }

  lemma CycleIsClass(p: int, c: int, nn: int, no: int, g: int, i: int, len: int, x: int, y: int)
    requires CycleShape(nn, no, g, len, x, y) && Divides(g, no) && 0 <= i < g && 0 <= p < nn + no && c == nn + i
    ensures p % g == i ==> exists k :: 1 <= k <= len && Orbit(c, k, nn, no) == p
    ensures forall k: nat :: Orbit(c, k, nn, no) == p ==> p % g == i
  {
    ResidueClass(p, nn, i, g);
    if p % g == i {
      var w :| Times(w, g) == p - c;
      assert c - p == -w * g;
      var k := OrbitCovers(c, p, -w, nn, no, g, len, x, y);
    }
    forall k: nat | Orbit(c, k, nn, no) == p ensures p % g == i {
      OrbitResidue(c, k, nn, no, g);
    }
  }

  lemma NumberedCycle(cls: seq<int>, i: int, nn: int, no: int, g: int, len: int, x: int, y: int) returns (orb: seq<int>)
    requires CycleShape(nn, no, g, len, x, y) && Divides(g, no) && 0 <= i < g
    requires |cls| == nn + no && forall p :: 0 <= p < nn + no ==> cls[p] == p % g
    ensures IsCycle(orb, nn + i, len, nn, no)
    ensures forall p :: 0 <= p < nn + no ==> (p in Visited(orb, len) <==> cls[p] == i)
  {
    orb := CycleFrom(nn + i, nn, no, g, len, x, y);
    forall p | 0 <= p < nn + no ensures p in Visited(orb, len) <==> cls[p] == i {
      CycleIsClass(p, nn + i, nn, no, g, i, len, x, y);
      VisitedMember(orb, len, p);
      if cls[p] == i {
        var k :| 1 <= k <= len && Orbit(nn + i, k, nn, no) == p;
        assert orb[k] == p;
      }
    }
  }

  /** Cycle i starts at slot nn + i and visits exactly the slots numbered i, each once:
      together the g cycles visit every slot once. */
  ghost predicate IsPlan(cls: seq<int>, orbs: seq<seq<int>>, g: int, len: int, nn: int, no: int) {
    && IsNumbering(cls, g, nn, no) && |orbs| == g
    && (forall i :: 0 <= i < g ==> IsCycle(orbs[i], nn + i, len, nn, no))
    && (forall i, p :: 0 <= i < g && 0 <= p < nn + no ==> (p in Visited(orbs[i], len) <==> cls[p] == i))
  }

  lemma CyclePlan(nn: int, no: int, g: int, len: int, x: int, y: int) returns (cls: seq<int>, orbs: seq<seq<int>>)
    requires CycleShape(nn, no, g, len, x, y) && Divides(g, no)
    ensures IsPlan(cls, orbs, g, len, nn, no)
  {
    cls := Numbering(nn, no, g);
    orbs := [];
    while |orbs| < g
      invariant |orbs| <= g
      invariant forall i :: 0 <= i < |orbs| ==> IsCycle(orbs[i], nn + i, len, nn, no)
      invariant forall i, p :: 0 <= i < |orbs| && 0 <= p < nn + no ==> (p in Visited(orbs[i], len) <==> cls[p] == i)
    {
      var orb := NumberedCycle(cls, |orbs|, nn, no, g, len, x, y);
      orbs := orbs + [orb];
    }
  }

  // ----- the in-place exchange -----

  /** The slots q of the pair satisfying `moved` hold their source's argument, nothing else changed. */
  ghost predicate Refilled<T>(a: seq<T>, b: seq<T>, s: int, nn: int, no: int, moved: set<int>)
    requires 0 <= s && 0 < nn && 0 < no && s + nn + no <= |a|
  {
    && |b| == |a|
    && (forall q :: s <= q < s + nn + no && q - s in moved ==> b[q] == a[s + Source(q - s, nn, no)])
    && (forall q :: 0 <= q < |a| && !(s <= q < s + nn + no && q - s in moved) ==> b[q] == a[q])
  }

  /** The cycle of c in progress: the visited slots are refilled, and slot c holds
      the argument displaced from slot hand. */
  ghost predicate CycleProgress<T>(a: seq<T>, b: seq<T>, s: int, nn: int, no: int, c: int, hand: int, visited: set<int>)
    requires 0 <= s && 0 < nn && 0 < no && s + nn + no <= |a| && 0 <= c < nn + no && 0 <= hand < nn + no
  {
    && |b| == |a| && c !in visited && b[s + c] == a[s + hand]
    && (forall q :: s <= q < s + nn + no && q - s in visited ==> b[q] == a[s + Source(q - s, nn, no)])
    && (forall q :: 0 <= q < |a| && q != s + c && !(s <= q < s + nn + no && q - s in visited) ==> b[q] == a[q])
  }

  lemma SwapNext<T>(a: seq<T>, b: seq<T>, s: int, nn: int, no: int, c: int, hand: int, visited: set<int>, p: int)
    requires 0 <= s && 0 < nn && 0 < no && s + nn + no <= |a|
    requires 0 <= c < nn + no && 0 <= hand < nn + no && 0 <= p < nn + no
    requires CycleProgress(a, b, s, nn, no, c, hand, visited)
    requires p != c && p !in visited && hand == Source(p, nn, no)
    ensures CycleProgress(a, b[s + p := b[s + c]][s + c := b[s + p]], s, nn, no, c, p, visited + {p})
  {
  }

  lemma CloseCycle<T>(a: seq<T>, b: seq<T>, s: int, nn: int, no: int, c: int, hand: int, visited: set<int>)
    requires 0 <= s && 0 < nn && 0 < no && s + nn + no <= |a|
    requires 0 <= c < nn + no && 0 <= hand < nn + no
    requires CycleProgress(a, b, s, nn, no, c, hand, visited) && hand == Source(c, nn, no)
    ensures Refilled(a, b, s, nn, no, visited + {c})
  {
  }

  lemma VisitedNext(orb: seq<int>, c: int, len: int, nn: int, no: int, j: nat)
    requires IsCycle(orb, c, len, nn, no) && j + 1 < len
    ensures orb[j + 1] !in Visited(orb, j) && orb[j + 1] != c
  {
    VisitedMember(orb, j, orb[j + 1]);
  }

  /** The inner loop: carry the argument in slot c of the pair along its cycle by swapping. */
  method FollowCycle<T>(argv: array<T>, start: int, nn: int, no: int, c: int, len: int,
                        ghost orb: seq<int>, ghost a: seq<T>) returns (ghost b: seq<T>)
    requires argv[..] == a
    requires 0 <= start && 0 < nn && 0 < no && 0 <= c < nn + no && start + nn + no <= argv.Length
    requires IsCycle(orb, c, len, nn, no)
    modifies argv
    ensures argv[..] == b && Refilled(a, b, start, nn, no, Visited(orb, len))
  {
    b := a;
    var cstart := start + c;
    var pos := cstart;
    var j := 0;
    while j < len
      invariant 0 <= j <= len && pos == start + orb[j] && argv[..] == b
      invariant j < len ==> CycleProgress(a, b, start, nn, no, c, orb[j], Visited(orb, j))
      invariant j == len ==> Refilled(a, b, start, nn, no, Visited(orb, len))
    {
      ghost var b' := CycleTurn(a, b, start, nn, no, c, orb, len, j);
      pos := if pos >= start + nn then pos - nn else pos + no;
      Swap(argv, pos, cstart, b);
      b := b';
      j := j + 1;
    }
  }

  method Swap<T>(a: array<T>, i: int, j: int, ghost s: seq<T>)
    requires 0 <= i < a.Length && 0 <= j < a.Length && a[..] == s
    modifies a
    ensures a[..] == s[i := s[j]][j := s[i]]
  {
    a[i], a[j] := a[j], a[i];
  }

  /** One turn of the inner loop. */
  lemma CycleTurn<T>(a: seq<T>, b: seq<T>, s: int, nn: int, no: int, c: int, orb: seq<int>, len: int, j: nat)
    returns (b': seq<T>)
    requires 0 <= s && s + nn + no <= |a| && 0 <= c < nn + no && j < len
    requires IsCycle(orb, c, len, nn, no)
    requires CycleProgress(a, b, s, nn, no, c, orb[j], Visited(orb, j))
    ensures 0 <= orb[j + 1] < nn + no && orb[j + 1] == Target(orb[j], nn, no)
    ensures var p := s + orb[j + 1]; b' == b[p := b[s + c]][s + c := b[p]]
    ensures j + 1 < len ==> CycleProgress(a, b', s, nn, no, c, orb[j + 1], Visited(orb, j + 1))
    ensures j + 1 == len ==> Refilled(a, b', s, nn, no, Visited(orb, len))
  {
    var p := s + orb[j + 1];
    b' := b[p := b[s + c]][s + c := b[p]];
    assert Linked(orb, j, nn, no);
    if j + 1 < len {
      VisitedNext(orb, c, len, nn, no, j);
      SwapNext(a, b, s, nn, no, c, orb[j], Visited(orb, j), orb[j + 1]);
    } else {
      CloseCycle(a, b, s, nn, no, c, orb[j], Visited(orb, j));
      assert b' == b;
    }
  }

  ghost function Numbered(cls: seq<int>, i: int): set<int> {
    set p | 0 <= p < |cls| && cls[p] < i
  }

  /** One more cycle: its sources have not been written by the earlier ones. */
  lemma OneMoreCycle<T>(a: seq<T>, b: seq<T>, b': seq<T>, s: int, nn: int, no: int,
                        cls: seq<int>, g: int, i: int, orb: set<int>)
    requires 0 <= s && 0 < nn && 0 < no && s + nn + no <= |a| && IsNumbering(cls, g, nn, no)
    requires forall p :: 0 <= p < nn + no ==> (p in orb <==> cls[p] == i)
    requires Refilled(a, b, s, nn, no, Numbered(cls, i)) && Refilled(b, b', s, nn, no, orb)
    ensures Refilled(a, b', s, nn, no, Numbered(cls, i + 1))
  {
    forall q | s <= q < s + nn + no && cls[q - s] <= i ensures b'[q] == a[s + Source(q - s, nn, no)] {
      if cls[q - s] == i {
        assert b[s + Source(q - s, nn, no)] == a[s + Source(q - s, nn, no)];
      }
    }
  }

  type Cycles = seq<seq<int>>

  /** Number and length of the cycles, with the cycles themselves as ghosts. */
  method CycleCount(nn: int, no: int) returns (ncycle: int, cyclelen: int, ghost cls: seq<int>, ghost orbs: Cycles)
    requires 0 < nn && 0 < no
    ensures 0 < ncycle <= no
    ensures IsPlan(cls, orbs, ncycle, cyclelen, nn, no)
  {
    ghost var x, y;
    ncycle, x, y := Gcd(nn, no);
    cyclelen := (nn + no) / ncycle;
    CycleLength(nn, no, ncycle);
    cls, orbs := CyclePlan(nn, no, ncycle, cyclelen, x, y);
  }

  /** Exchange the block start..end with the block end..optEnd, in place. */
  method PermuteArgs<T>(argv: array<T>, start: int, end: int, optEnd: int)
    requires 0 <= start < end < optEnd <= argv.Length
    modifies argv
    ensures argv[..] == old(argv[..start] + argv[end..optEnd] + argv[start..end] + argv[optEnd..])
  {
    var nn, no := end - start, optEnd - end;
    var ncycle, cyclelen;
    ghost var cls, orbs;
    ncycle, cyclelen, cls, orbs := CycleCount(nn, no);
    ghost var a, b := argv[..], argv[..];
    var i := 0;
    while i < ncycle
      invariant 0 <= i <= ncycle && argv[..] == b
      invariant Refilled(a, b, start, nn, no, Numbered(cls, i))
    {
      ghost var b' := FollowCycle(argv, start, nn, no, nn + i, cyclelen, orbs[i], b);
      OneMoreCycle(a, b, b', start, nn, no, cls, ncycle, i, Visited(orbs[i], cyclelen));
      b := b';
      i := i + 1;
    }
    Exchanged(a, b, start, end, optEnd, cls, ncycle);
  }

  lemma Exchanged<T>(a: seq<T>, b: seq<T>, start: int, end: int, optEnd: int, cls: seq<int>, g: int)
    requires 0 <= start < end < optEnd <= |a|
    requires IsNumbering(cls, g, end - start, optEnd - end)
    requires Refilled(a, b, start, end - start, optEnd - end, Numbered(cls, g))
    ensures b == a[..start] + a[end..optEnd] + a[start..end] + a[optEnd..]
  {
    var r := a[..start] + a[end..optEnd] + a[start..end] + a[optEnd..];
    forall q | 0 <= q < |a| ensures b[q] == r[q] {
      if start <= q < optEnd {
        assert q - start in Numbered(cls, g);
        assert b[q] == a[start + Source(q - start, end - start, optEnd - end)];
      }
    }
  }

  lemma ExactQuotient(k: int, g: int)
    requires 0 < g && 0 < k * g
    ensures (k * g) / g == k && k > 0
  {
    var q, r := (k * g) / g, (k * g) % g;
    assert r == (k - q) * g;
    MultipleIsFar(k - q, g);
  }

  lemma CycleLength(nn: int, no: int, g: int)
    requires 0 < nn && 0 < no && 0 < g && Divides(g, nn) && Divides(g, no)
    ensures g * ((nn + no) / g) == nn + no && (nn + no) / g > 0
  {
    DividesCombination(g, nn, 1, no, 1);
    var k :| Times(k, g) == nn * 1 + no * 1;
    ExactQuotient(k, g);
  }
}
