/** Levinson-Durbin recursion over the reals: the in-place loops and the normal equations they solve. */
module Levinson {
  /** A product, so that proofs need not look inside. */
  function Times(a: real, b: real): real { a * b }

  /** One entry less a multiple of another. */
  function Pull(a: real, b: real, t: real): real { a - b * t }

  // ----- sums -----

  function Sum(t: seq<real>): real { if t == [] then 0.0 else Sum(t[..|t| - 1]) + t[|t| - 1] }

  function Rev(s: seq<real>): (r: seq<real>)
    ensures |r| == |s|
  {
    if s == [] then [] else [s[|s| - 1]] + Rev(s[..|s| - 1])
  }

  lemma {:induction false} RevAt(s: seq<real>, j: nat)
    requires j < |s|
    ensures Rev(s)[j] == s[|s| - 1 - j]
  {
    if j > 0 { RevAt(s[..|s| - 1], j - 1); }
  }

  lemma {:induction false} SumFront(x: real, t: seq<real>)
    ensures Sum([x] + t) == x + Sum(t)
  {
    if t == [] {
      assert [x] + t == [x];
      assert Sum([x][..0]) == 0.0;
    } else {
      var s := [x] + t;
      assert s[..|s| - 1] == [x] + t[..|t| - 1];
      SumFront(x, t[..|t| - 1]);
    }
  }

  lemma {:induction false} SumRev(t: seq<real>)
    ensures Sum(Rev(t)) == Sum(t)
  {
    if t != [] {
      SumFront(t[|t| - 1], Rev(t[..|t| - 1]));
      SumRev(t[..|t| - 1]);
    }
  }

  // ----- the equations -----

  function Abs(x: int): nat { if x < 0 then -x else x }

  /** The products `h[j] * r[|m - 1 - j|]`. */
  function Terms(h: seq<real>, r: seq<real>, m: nat): (t: seq<real>)
    requires m <= |h| + 1 && |h| < |r|
    ensures |t| == |h|
  {
    TermsTo(h, r, m, |h|)
  }

  function TermsTo(h: seq<real>, r: seq<real>, m: nat, n: nat): (t: seq<real>)
    requires m <= |h| + 1 && |h| < |r| && n <= |h|
    ensures |t| == n
  {
    if n == 0 then [] else TermsTo(h, r, m, n - 1) + [Times(h[n - 1], r[Abs(m - n)])]
  }

  lemma {:induction false} TermAt(h: seq<real>, r: seq<real>, m: nat, n: nat, j: nat)
    requires m <= |h| + 1 && |h| < |r| && j < n <= |h|
    ensures TermsTo(h, r, m, n)[j] == Times(h[j], r[Abs(m - 1 - j)])
  {
    hide Times;
    if j < n - 1 { TermAt(h, r, m, n - 1, j); }
  }

  /** Row `m` of the Toeplitz system applied to `h`. */
  function Dot(h: seq<real>, r: seq<real>, m: nat): real
    requires m <= |h| + 1 && |h| < |r|
  {
    Sum(Terms(h, r, m))
  }

  /** The system is symmetric about its centre. */
  lemma DotRev(h: seq<real>, r: seq<real>, m: nat)
    requires m <= |h| + 1 && |h| < |r|
    ensures Dot(Rev(h), r, m) == Dot(h, r, |h| + 1 - m)
  {
    hide *;
    var n := |h|;
    DotIs(Rev(h), r, m);
    DotIs(h, r, n + 1 - m);
    var a, b := TermsTo(Rev(h), r, m, n), TermsTo(h, r, n + 1 - m, n);
    forall j | 0 <= j < n ensures a[j] == Rev(b)[j] {
      TermAt(Rev(h), r, m, n, j);
      RevAt(h, j);
      RevAt(b, j);
      TermAt(h, r, n + 1 - m, n, n - 1 - j);
      AbsFlip(m - 1 - j, (n + 1 - m) - 1 - (n - 1 - j));
    }
    assert a == Rev(b);
    SumRev(b);
  }

  lemma AbsFlip(x: int, y: int)
    requires x == -y
    ensures Abs(x) == Abs(y)
  {}

  lemma DotIs(h: seq<real>, r: seq<real>, m: nat)
    requires m <= |h| + 1 && |h| < |r|
    ensures Dot(h, r, m) == Sum(TermsTo(h, r, m, |h|))
  {
    hide Times, TermsTo, Sum;
  }

  /** `a - t * b`, entry by entry. */
  function Less(a: seq<real>, t: real, b: seq<real>): (c: seq<real>)
    requires |a| == |b|
    ensures |c| == |a|
  {
    if a == [] then [] else Less(a[..|a| - 1], t, b[..|b| - 1]) + [Pull(a[|a| - 1], b[|b| - 1], t)]
  }

  lemma {:induction false} LessAt(a: seq<real>, t: real, b: seq<real>, j: nat)
    requires |a| == |b| && j < |a|
    ensures Less(a, t, b)[j] == Pull(a[j], b[j], t)
  {
    hide Pull;
    if j < |a| - 1 { LessAt(a[..|a| - 1], t, b[..|b| - 1], j); }
  }

  lemma Distribute(a: real, b: real, t: real, c: real)
    ensures Times(Pull(a, b, t), c) == Times(a, c) - Times(t, Times(b, c))
  {
    assert (a - b * t) * c == a * c - b * t * c;
  }

  lemma {:induction false} SumLess(x: seq<real>, t: real, y: seq<real>, z: seq<real>)
    requires |x| == |y| == |z| && forall j :: 0 <= j < |x| ==> z[j] == x[j] - Times(t, y[j])
    ensures Sum(z) == Sum(x) - Times(t, Sum(y))
  {
    hide Times;
    if x == [] {
      TimesZero(t);
    } else {
      var n := |x| - 1;
      SumLess(x[..n], t, y[..n], z[..n]);
      TimesPlus(t, Sum(y[..n]), y[n]);
    }
  }

  lemma TimesPlus(t: real, a: real, b: real)
    ensures Times(t, a + b) == Times(t, a) + Times(t, b)
  {}

  lemma TimesZero(t: real)
    ensures Times(t, 0.0) == 0.0
  {}

  lemma {:induction false} TermsPrefix(h: seq<real>, x: real, r: seq<real>, m: nat, n: nat)
    requires m <= |h| + 1 && |h| + 1 < |r| && n <= |h|
    ensures TermsTo(h + [x], r, m, n) == TermsTo(h, r, m, n)
  {
    hide Times;
    if n > 0 { TermsPrefix(h, x, r, m, n - 1); }
  }

  /** Appending an entry adds its term. */
  lemma DotSnoc(h: seq<real>, x: real, r: seq<real>, m: nat)
    requires m <= |h| + 1 && |h| + 1 < |r|
    ensures Dot(h + [x], r, m) == Dot(h, r, m) + Times(x, r[Abs(m - |h| - 1)])
  {
    hide Times;
    TermsPrefix(h, x, r, m, |h|);
    var t := Terms(h + [x], r, m);
    assert t[..|t| - 1] == Terms(h, r, m);
  }

  lemma DotLess(h: seq<real>, t: real, g: seq<real>, r: seq<real>, m: nat)
    requires |h| == |g| && m <= |h| + 1 && |h| < |r|
    ensures Dot(Less(h, t, g), r, m) == Dot(h, r, m) - Times(t, Dot(g, r, m))
  {
    hide *;
    var c, n := Less(h, t, g), |h|;
    DotIs(h, r, m);
    DotIs(g, r, m);
    DotIs(c, r, m);
    var x, y, z := TermsTo(h, r, m, n), TermsTo(g, r, m, n), TermsTo(c, r, m, n);
    forall j | 0 <= j < n ensures z[j] == x[j] - Times(t, y[j]) {
      TermAt(h, r, m, n, j);
      TermAt(g, r, m, n, j);
      TermAt(c, r, m, n, j);
      LessAt(h, t, g, j);
      AbsIs(m - 1 - j);
      Distribute(h[j], g[j], t, r[Abs(m - 1 - j)]);
    }
    SumLess(x, t, y, z);
  }

  // ----- the recursion -----

  datatype Lpc = Lpc(h: seq<real>, k: seq<real>, e: real)

  function Step(r: seq<real>, l: Lpc): (n: Lpc)
    requires |l.h| + 1 < |r| && l.e != 0.0
    ensures |n.h| == |l.h| + 1 && |n.k| == |l.k| + 1
  {
    var tk := (r[|l.h| + 1] - Dot(l.h, r, |l.h| + 1)) / l.e;
    Lpc(Less(l.h, tk, Rev(l.h)) + [tk], l.k + [tk], Times(l.e, 1.0 - Times(tk, tk)))
  }

  /** Order `n`, as long as no prediction error vanishes before. */
  function Durbin(r: seq<real>, n: nat): (l: Lpc)
    requires n < |r|
    ensures |l.h| == |l.k| <= n
  {
    if n == 0 then Lpc([], [], r[0])
    else
      var l := Durbin(r, n - 1);
      if l.e == 0.0 then l else Step(r, l)
  }

  ghost predicate Regular(r: seq<real>, n: nat)
    requires n < |r|
  {
    forall i :: 0 <= i < n ==> Durbin(r, i).e != 0.0
  }

  lemma DurbinIs(r: seq<real>, n: nat)
    requires n < |r| && Regular(r, n)
    ensures n == 0 ==> Durbin(r, n) == Lpc([], [], r[0])
    ensures n > 0 ==> Regular(r, n - 1) && Durbin(r, n - 1).e != 0.0 && |Durbin(r, n - 1).h| + 1 < |r|
                      && Durbin(r, n) == Step(r, Durbin(r, n - 1))
  {
    hide Step;
    if n > 0 { assert Durbin(r, n - 1).e != 0.0; }
  }

  lemma {:induction false} OrderReached(r: seq<real>, n: nat)
    requires n < |r| && Regular(r, n)
    ensures |Durbin(r, n).h| == |Durbin(r, n).k| == n
  {
    hide *;
    DurbinIs(r, n);
    if n > 0 { OrderReached(r, n - 1); }
  }

  /** The coefficients solve the symmetric Toeplitz equations, and `e` is what prediction leaves. */
  ghost predicate Solves(r: seq<real>, h: seq<real>, e: real)
    requires |h| < |r|
  {
    && (forall m :: 1 <= m <= |h| ==> Dot(h, r, m) == r[m])
    && e == r[0] - Dot(h, r, 0)
  }

  lemma DivBack(x: real, e: real)
    requires e != 0.0
    ensures Times(x / e, e) == x
  {}

  lemma LastRow(s: real, tk: real, r0: real, e: real)
    ensures s - Times(tk, r0 - e) + Times(tk, r0) == s + Times(tk, e)
  {}

  lemma ErrorRow(r0: real, e: real, tk: real, s: real, x: real)
    requires Times(tk, e) == x - s
    ensures r0 - ((r0 - e) - Times(tk, s) + Times(tk, x)) == Times(e, 1.0 - Times(tk, tk))
  {
    assert tk * x - tk * s == tk * (x - s);
    assert tk * (tk * e) == e * (tk * tk);
    assert e * (1.0 - tk * tk) == e - e * (tk * tk);
  }

  lemma StepIs(r: seq<real>, l: Lpc)
    requires |l.h| + 1 < |r| && l.e != 0.0
    ensures var tk := (r[|l.h| + 1] - Dot(l.h, r, |l.h| + 1)) / l.e;
            Step(r, l) == Lpc(Less(l.h, tk, Rev(l.h)) + [tk], l.k + [tk], Times(l.e, 1.0 - Times(tk, tk)))
  {
    hide Dot, Less, Rev, Times;
  }

  lemma SolvesIs(r: seq<real>, h: seq<real>, e: real)
    requires |h| < |r|
    ensures Solves(r, h, e) <==> (forall m :: 1 <= m <= |h| ==> Dot(h, r, m) == r[m]) && e == r[0] - Dot(h, r, 0)
  {
    hide Dot;
  }

  lemma RowIs(r: seq<real>, h: seq<real>, tk: real, m: nat)
    requires |h| + 1 < |r| && m <= |h| + 1
    ensures Dot(Less(h, tk, Rev(h)) + [tk], r, m)
         == Dot(h, r, m) - Times(tk, Dot(h, r, |h| + 1 - m)) + Times(tk, r[|h| + 1 - m])
  {
    hide *;
    DotSnoc(Less(h, tk, Rev(h)), tk, r, m);
    DotLess(h, tk, Rev(h), r, m);
    DotRev(h, r, m);
    AbsIs(m - |h| - 1);
  }

  lemma AbsIs(x: int)
    ensures Abs(x) == if x < 0 then -x else x
  {}

  lemma StepSolves(r: seq<real>, l: Lpc)
    requires |l.h| + 1 < |r| && l.e != 0.0 && Solves(r, l.h, l.e)
    ensures Solves(r, Step(r, l).h, Step(r, l).e)
  {
    hide *;
    var h, n := l.h, |l.h|;
    var s := Dot(h, r, n + 1);
    var tk := (r[n + 1] - s) / l.e;
    StepIs(r, l);
    SolvesIs(r, h, l.e);
    DivBack(r[n + 1] - s, l.e);
    var g := Less(h, tk, Rev(h)) + [tk];
    forall m | 1 <= m <= n + 1 ensures Dot(g, r, m) == r[m] {
      RowIs(r, h, tk, m);
      LastRow(s, tk, r[0], l.e);
    }
    RowIs(r, h, tk, 0);
    ErrorRow(r[0], l.e, tk, s, r[n + 1]);
    SolvesIs(r, g, Times(l.e, 1.0 - Times(tk, tk)));
  }

  lemma NoneSolves(r: seq<real>)
    requires 0 < |r|
    ensures Solves(r, [], r[0])
  {
    assert Terms([], r, 0) == [];
  }

  lemma {:induction false} DurbinSolves(r: seq<real>, n: nat)
    requires n < |r| && Regular(r, n)
    ensures |Durbin(r, n).h| == n && Solves(r, Durbin(r, n).h, Durbin(r, n).e)
  {
    hide *;
    OrderReached(r, n);
    DurbinIs(r, n);
    if n == 0 {
      NoneSolves(r);
    } else {
      OrderReached(r, n - 1);
      DurbinSolves(r, n - 1);
      StepSolves(r, Durbin(r, n - 1));
    }
  }

  /** The error as a product. */
  function Shrunk(e: real, k: seq<real>): real
  {
    if k == [] then e else Times(Shrunk(e, k[..|k| - 1]), 1.0 - Times(k[|k| - 1], k[|k| - 1]))
  }

  lemma ShrunkIs(e: real, k: seq<real>, t: real)
    ensures Shrunk(e, []) == e && Shrunk(e, k + [t]) == Times(Shrunk(e, k), 1.0 - Times(t, t))
  {
    hide Times;
    assert (k + [t])[..|k|] == k;
  }

  lemma {:induction false} ErrorIsProduct(r: seq<real>, n: nat)
    requires n < |r| && Regular(r, n)
    ensures Durbin(r, n).e == Shrunk(r[0], Durbin(r, n).k)
  {
    hide *;
    DurbinIs(r, n);
    if n == 0 {
      ShrunkIs(r[0], [], 0.0);
    } else {
      ErrorIsProduct(r, n - 1);
      var l := Durbin(r, n - 1);
      StepIs(r, l);
      ShrunkIs(r[0], l.k, (r[|l.h| + 1] - Dot(l.h, r, |l.h| + 1)) / l.e);
    }
  }

  // ----- in place -----

  /** The inner product over `i` entries, one pointer going up and one coming down. */
  method Inner(h: array<real>, akf: array<real>, i: nat) returns (s: real)
    requires i <= h.Length && i < akf.Length
    ensures s == Dot(h[..i], akf[..], i + 1)
  {
    hide Times;
    s := 0.0;
    var p, q, j := 0, i, i;
    while j > 0
      invariant 0 <= j <= i && p == i - j && q == j
      invariant s == Sum(TermsTo(h[..i], akf[..], i + 1, p))
    {
      ghost var t := TermsTo(h[..i], akf[..], i + 1, p + 1);
      assert t[..|t| - 1] == TermsTo(h[..i], akf[..], i + 1, p);
      assert h[..i][p] == h[p] && akf[..][q] == akf[q];
      TimesIs(h[p], akf[q]);
      s := s + h[p] * akf[q];
      p, q, j := p + 1, q - 1, j - 1;
    }
  }

  /** The update `h[j] - h[i-1-j] * tk` of the first `i` entries, from both ends at once. */
  method Fold(h: array<real>, i: nat, tk: real)
    requires i <= h.Length
    modifies h
    ensures h[..i] == Less(old(h[..i]), tk, Rev(old(h[..i]))) && h[i..] == old(h[i..])
  {
    hide Pull, Less, Rev;
    ghost var was := h[..i];
    var p, q := 0, i - 1;
    while p < q
      invariant 0 <= p && p + q == i - 1 && q >= -1 && p <= i
      invariant forall j :: 0 <= j < p ==> h[j] == Pull(was[j], was[i - 1 - j], tk)
      invariant forall j :: q < j < i ==> h[j] == Pull(was[j], was[i - 1 - j], tk)
      invariant forall j :: p <= j <= q ==> h[j] == was[j]
      invariant h[i..] == old(h[i..])
      decreases q - p
    {
      var a, b := h[p], h[q];
      h[p] := Pull(a, b, tk);
      h[q] := Pull(b, a, tk);
      p, q := p + 1, q - 1;
    }
    if p == q {
      var x := Damp(h[p], tk);
      h[p] := x;
    }
    forall j | 0 <= j < i ensures h[j] == Less(was, tk, Rev(was))[j] {
      LessAt(was, tk, Rev(was), j);
      RevAt(was, j);
    }
  }

  /** The entry in the middle meets itself. */
  method Damp(x: real, tk: real) returns (y: real)
    ensures y == Pull(x, x, tk)
  {
    y := x * (1.0 - tk);
  }

  lemma TimesIs(a: real, b: real)
    ensures a * b == Times(a, b)
  {}

  /** `durbin_akf_to_kh`. */
  method DurbinInPlace(k: array<real>, h: array<real>, akf: array<real>, n: nat)
    requires n <= k.Length && n <= h.Length && n < akf.Length && k != h && k != akf && h != akf
    requires Regular(akf[..], n)
    modifies k, h
    ensures h[..n] == Durbin(akf[..], n).h && k[..n] == Durbin(akf[..], n).k
  {
    hide *;
    ghost var r := akf[..];
    var e := akf[0];
    RegularTo(r, 0, n);
    DurbinIs(r, 0);
    var i := 0;
    while i < n
      invariant 0 <= i <= n && akf[..] == r
      invariant Lpc(h[..i], k[..i], e) == Durbin(r, i)
    {
      RegularTo(r, i + 1, n);
      DurbinIs(r, i + 1);
      ghost var l := Durbin(r, i);
      StepIs(r, l);
      var s := Inner(h, akf, i);
      var tk := (akf[i + 1] - s) / e;
      TimesIs(tk, tk);
      TimesIs(e, 1.0 - tk * tk);
      e := e * (1.0 - tk * tk);
      h[i] := tk;
      k[i] := tk;
      assert h[..i] == l.h && h[i..][0] == tk;
      Fold(h, i, tk);
      assert h[i] == h[i..][0] == tk;
      assert h[..i + 1] == h[..i] + [h[i]];
      assert k[..i + 1] == l.k + [tk];
      i := i + 1;
    }
  }

  lemma RegularTo(r: seq<real>, i: nat, n: nat)
    requires i <= n < |r| && Regular(r, n)
    ensures Regular(r, i)
  {
    hide Durbin;
  }

  // ----- the unrolled low orders -----

  lemma OneStep(r: seq<real>)
    requires 1 < |r| && Regular(r, 1)
    ensures r[0] != 0.0
    ensures var t := r[1] / r[0]; Durbin(r, 1) == Lpc([t], [t], Times(r[0], 1.0 - Times(t, t)))
  {
    RegularTo(r, 0, 1);
    DurbinIs(r, 1);
    DurbinIs(r, 0);
    StepIs(r, Durbin(r, 0));
    assert Terms([], r, 1) == [];
    assert Less([], r[1] / r[0], Rev([])) == [];
    hide Times, Step, Durbin;
  }

  lemma SumOne(x: real)
    ensures Sum([x]) == x
  {
    SumFront(x, []);
    assert [x] + [] == [x];
  }

  lemma DotOne(a: real, r: seq<real>)
    requires 2 < |r|
    ensures Dot([a], r, 2) == Times(a, r[1])
  {
    hide *;
    DotIs([a], r, 2);
    var t := TermsTo([a], r, 2, 1);
    TermAt([a], r, 2, 1, 0);
    AbsIs(1);
    assert t == [t[0]];
    SumOne(t[0]);
  }

  lemma DotTwo(a: real, b: real, r: seq<real>)
    requires 3 < |r|
    ensures Dot([a, b], r, 3) == Times(a, r[2]) + Times(b, r[1])
  {
    hide *;
    DotIs([a, b], r, 3);
    var t := TermsTo([a, b], r, 3, 2);
    TermAt([a, b], r, 3, 2, 0);
    TermAt([a, b], r, 3, 2, 1);
    AbsIs(1);
    AbsIs(2);
    assert t == [t[0]] + [t[1]];
    SumFront(t[0], [t[1]]);
    SumOne(t[1]);
  }

  lemma LessOne(a: real, t: real)
    ensures Less([a], t, Rev([a])) == [Pull(a, a, t)]
  {
    hide Pull, Less, Rev;
    var x := Less([a], t, Rev([a]));
    LessAt([a], t, Rev([a]), 0);
    RevAt([a], 0);
    assert x == [x[0]];
  }

  lemma LessTwo(a: real, b: real, t: real)
    ensures Less([a, b], t, Rev([a, b])) == [Pull(a, b, t), Pull(b, a, t)]
  {
    hide Pull, Less, Rev;
    var x := Less([a, b], t, Rev([a, b]));
    LessAt([a, b], t, Rev([a, b]), 0);
    LessAt([a, b], t, Rev([a, b]), 1);
    RevAt([a, b], 0);
    RevAt([a, b], 1);
    assert x == [x[0], x[1]];
  }

  /** `durbin_akf_to_kh1`. */
  method DurbinOne(k: array<real>, h: array<real>, akf: array<real>)
    requires 1 <= k.Length && 1 <= h.Length && 1 < akf.Length && k != akf && h != akf && k != h && Regular(akf[..], 1)
    modifies k, h
    ensures h[..1] == Durbin(akf[..], 1).h && k[..1] == Durbin(akf[..], 1).k
  {
    hide *;
    OneStep(akf[..]);
    k[0] := akf[1] / akf[0];
    h[0] := k[0];
  }

  lemma TwoSteps(r: seq<real>, t: real, e: real, u: real)
    requires 2 < |r| && Regular(r, 2) && Durbin(r, 1) == Lpc([t], [t], e) && e != 0.0 && u == (r[2] - Times(t, r[1])) / e
    ensures Durbin(r, 2) == Lpc([Pull(t, t, u), u], [t, u], Times(e, 1.0 - Times(u, u)))
  {
    hide *;
    DurbinIs(r, 2);
    StepIs(r, Durbin(r, 1));
    DotOne(t, r);
    LessOne(t, u);
  }

  /** `durbin_akf_to_kh2`. */
  method DurbinTwo(k: array<real>, h: array<real>, akf: array<real>)
    requires 2 <= k.Length && 2 <= h.Length && 2 < akf.Length && k != akf && h != akf && k != h && Regular(akf[..], 2)
    modifies k, h
    ensures h[..2] == Durbin(akf[..], 2).h && k[..2] == Durbin(akf[..], 2).k
  {
    hide *;
    ghost var r := akf[..];
    RegularTo(r, 1, 2);
    OneStep(r);
    DurbinIs(r, 2);
    var tk := akf[1] / akf[0];
    TimesIs(tk, tk);
    TimesIs(akf[0], 1.0 - tk * tk);
    var e := akf[0] * (1.0 - tk * tk);
    k[0] := tk;
    h[0] := tk;
    TimesIs(tk, akf[1]);
    ghost var t := tk;
    tk := (akf[2] - h[0] * akf[1]) / e;
    TwoSteps(r, t, e, tk);
    k[1] := tk;
    h[1] := tk;
    var x := Damp(h[0], tk);
    h[0] := x;
    assert h[..2] == [h[0], h[1]] && k[..2] == [k[0], k[1]];
  }

  lemma ThreeSteps(r: seq<real>, a: real, b: real, k: seq<real>, e: real, u: real)
    requires 3 < |r| && Regular(r, 3) && Durbin(r, 2) == Lpc([a, b], k, e) && e != 0.0
    requires u == (r[3] - (Times(a, r[2]) + Times(b, r[1]))) / e
    ensures Durbin(r, 3).h == [Pull(a, b, u), Pull(b, a, u), u] && Durbin(r, 3).k == k + [u]
  {
    hide *;
    DurbinIs(r, 3);
    StepIs(r, Durbin(r, 2));
    DotTwo(a, b, r);
    LessTwo(a, b, u);
  }

  /** `durbin_akf_to_kh3`. */
  method DurbinThree(k: array<real>, h: array<real>, akf: array<real>)
    requires 3 <= k.Length && 3 <= h.Length && 3 < akf.Length && k != akf && h != akf && k != h && Regular(akf[..], 3)
    modifies k, h
    ensures h[..3] == Durbin(akf[..], 3).h && k[..3] == Durbin(akf[..], 3).k
  {
    hide *;
    ghost var r := akf[..];
    RegularTo(r, 1, 3);
    RegularTo(r, 2, 3);
    OneStep(r);
    DurbinIs(r, 2);
    DurbinIs(r, 3);
    var tk := akf[1] / akf[0];
    TimesIs(tk, tk);
    TimesIs(akf[0], 1.0 - tk * tk);
    var e := akf[0] * (1.0 - tk * tk);
    k[0] := tk;
    h[0] := tk;
    TimesIs(tk, akf[1]);
    ghost var t := tk;
    tk := (akf[2] - h[0] * akf[1]) / e;
    TwoSteps(r, t, e, tk);
    TimesIs(tk, tk);
    TimesIs(e, 1.0 - tk * tk);
    e := e * (1.0 - tk * tk);
    k[1] := tk;
    h[1] := tk;
    var x := Damp(h[0], tk);
    h[0] := x;
    TimesIs(h[0], akf[2]);
    TimesIs(h[1], akf[1]);
    Regroup(akf[3], h[0] * akf[2], h[1] * akf[1]);
    tk := (akf[3] - h[0] * akf[2] - h[1] * akf[1]) / e;
    k[2] := tk;
    h[2] := tk;
    ThreeSteps(r, h[0], h[1], [t, k[1]], e, tk);
    var a, b := h[0], h[1];
    h[0] := Pull(a, b, tk);
    h[1] := Pull(b, a, tk);
    assert h[..3] == [h[0], h[1], h[2]] && k[..3] == [t, k[1]] + [k[2]];
  }

  lemma Regroup(a: real, b: real, c: real)
    ensures a - b - c == a - (b + c)
  {}
}
