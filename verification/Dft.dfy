/** Complex numbers, powers, and the discrete Fourier sum as the value of a polynomial. */
module Dft {
  import opened BitStrings

  datatype Cx = Cx(re: real, im: real)

  const Zero: Cx := Cx(0.0, 0.0)
  const One: Cx := Cx(1.0, 0.0)
  const I: Cx := Cx(0.0, 1.0)

  function Add(a: Cx, b: Cx): Cx { Cx(a.re + b.re, a.im + b.im) }
  function Sub(a: Cx, b: Cx): Cx { Cx(a.re - b.re, a.im - b.im) }
  function Mul(a: Cx, b: Cx): Cx { Cx(a.re * b.re - a.im * b.im, a.re * b.im + a.im * b.re) }
  function Conj(a: Cx): Cx { Cx(a.re, -a.im) }

  lemma MulComm(a: Cx, b: Cx)
    ensures Mul(a, b) == Mul(b, a)
  {}

  lemma MulAssoc(a: Cx, b: Cx, c: Cx)
    ensures Mul(Mul(a, b), c) == Mul(a, Mul(b, c))
  {}

  lemma MulAdd(a: Cx, b: Cx, c: Cx)
    ensures Mul(Add(a, b), c) == Add(Mul(a, c), Mul(b, c)) && Mul(c, Add(a, b)) == Add(Mul(c, a), Mul(c, b))
  {}

  lemma MulUnit(a: Cx)
    ensures Mul(a, One) == a == Mul(One, a) && Mul(a, Zero) == Zero == Mul(Zero, a)
    ensures Mul(I, a) == Cx(-a.im, a.re) && Mul(Cx(-1.0, 0.0), a) == Cx(-a.re, -a.im) && Mul(Cx(0.0, -1.0), a) == Cx(a.im, -a.re)
  {}

  lemma MulConj(a: Cx, b: Cx)
    ensures Conj(Mul(a, b)) == Mul(Conj(a), Conj(b))
  {}

  // ----- powers -----

  function Pow(w: Cx, n: nat): Cx { if n == 0 then One else Mul(w, Pow(w, n - 1)) }

  lemma {:induction false} PowAdd(w: Cx, a: nat, b: nat)
    ensures Pow(w, a + b) == Mul(Pow(w, a), Pow(w, b))
    decreases a
  {
    hide Mul;
    if a == 0 {
      MulUnit(Pow(w, b));
    } else {
      PowAdd(w, a - 1, b);
      MulAssoc(w, Pow(w, a - 1), Pow(w, b));
    }
  }

  lemma PowFirst(w: Cx)
    ensures Pow(w, 1) == w && Pow(w, 0) == One
  {
    hide Mul;
    assert Pow(w, 0) == One;
    MulUnit(w);
  }

  lemma {:induction false} PowMul(a: Cx, b: Cx, n: nat)
    ensures Pow(Mul(a, b), n) == Mul(Pow(a, n), Pow(b, n))
  {
    hide Mul;
    if n == 0 {
      MulUnit(One);
    } else {
      PowMul(a, b, n - 1);
      var x, y := Pow(a, n - 1), Pow(b, n - 1);
      MulAssoc(a, b, Mul(x, y));
      MulAssoc(b, x, y);
      MulComm(b, x);
      MulAssoc(x, b, y);
      MulAssoc(a, x, Mul(b, y));
    }
  }

  lemma {:induction false} PowUnit(n: nat)
    ensures Pow(One, n) == One
  {
    hide Mul;
    if n > 0 {
      PowUnit(n - 1);
      MulUnit(One);
    }
  }

  /** Powers of powers may be taken in either order. */
  lemma {:induction false} PowSwap(w: Cx, a: nat, b: nat)
    ensures Pow(Pow(w, a), b) == Pow(Pow(w, b), a)
    decreases a
  {
    hide Mul;
    if a == 0 {
      PowUnit(b);
    } else {
      PowSwap(w, a - 1, b);
      PowMul(w, Pow(w, a - 1), b);
    }
  }

  lemma {:induction false} PowConj(w: Cx, n: nat)
    ensures Pow(Conj(w), n) == Conj(Pow(w, n))
  {
    hide Mul;
    if n > 0 {
      PowConj(w, n - 1);
      MulConj(w, Pow(w, n - 1));
    }
  }

  lemma PowTwice(w: Cx, n: nat)
    ensures Pow(w, 2 * n) == Pow(Mul(w, w), n) == Mul(Pow(w, n), Pow(w, n))
  {
    hide Mul;
    PowAdd(w, n, n);
    PowMul(w, w, n);
  }

  /** Multiples of a power of two in the exponent. */
  lemma {:induction false} PowShl(w: Cx, r: nat, d: nat)
    ensures Pow(w, Shl(r, d)) == Pow(Pow(w, Pow2(d)), r)
    decreases d
  {
    hide Mul, Pow;
    if d == 0 {
      PowFirst(w);
    } else {
      PowShl(w, r, d - 1);
      PowTwice(w, Pow2(d - 1));
      PowTwice(w, Shl(r, d - 1));
      PowMul(Pow(w, Pow2(d - 1)), Pow(w, Pow2(d - 1)), r);
    }
  }

  // ----- sums -----

  /** The polynomial with coefficients `y`, at `u`. With `u` the `k`-th power of a root of unity, this is the `k`-th value
      of the discrete Fourier transform of `y`. */
  function Eval(y: seq<Cx>, u: Cx): Cx
  {
    if y == [] then Zero else Add(Eval(y[..|y| - 1], u), Mul(y[|y| - 1], Pow(u, |y| - 1)))
  }

  lemma EvalLast(y: seq<Cx>, x: Cx, u: Cx)
    ensures Eval(y + [x], u) == Add(Eval(y, u), Mul(x, Pow(u, |y|)))
  {
    hide Add, Mul, Pow;
    assert (y + [x])[..|y|] == y;
  }

  lemma {:induction false} EvalConcat(a: seq<Cx>, b: seq<Cx>, u: Cx)
    ensures Eval(a + b, u) == Add(Eval(a, u), Mul(Pow(u, |a|), Eval(b, u)))
    decreases |b|
  {
    hide Mul, Pow;
    if b == [] {
      assert a + b == a;
      MulUnit(Pow(u, |a|));
    } else {
      var c, x := b[..|b| - 1], b[|b| - 1];
      assert b == c + [x];
      assert a + b == (a + c) + [x];
      EvalConcat(a, c, u);
      EvalLast(a + c, x, u);
      EvalLast(c, x, u);
      PowAdd(u, |a|, |c|);
      MulAdd(Eval(c, u), Mul(x, Pow(u, |c|)), Pow(u, |a|));
      MulSwap3(x, Pow(u, |a|), Pow(u, |c|));
    }
  }

  lemma MulSwap3(x: Cx, p: Cx, q: Cx)
    ensures Mul(x, Mul(p, q)) == Mul(p, Mul(x, q))
  {
    hide Mul;
    MulAssoc(x, p, q);
    MulComm(x, p);
    MulAssoc(p, x, q);
  }

  /** Coefficients term by term: `a + c * b`. */
  ghost predicate Sums(s: seq<Cx>, a: seq<Cx>, c: Cx, b: seq<Cx>)
  {
    |s| == |a| == |b| && forall j :: 0 <= j < |s| ==> s[j] == Add(a[j], Mul(c, b[j]))
  }

  lemma {:induction false} EvalSum(s: seq<Cx>, a: seq<Cx>, c: Cx, b: seq<Cx>, u: Cx)
    requires Sums(s, a, c, b)
    ensures Eval(s, u) == Add(Eval(a, u), Mul(c, Eval(b, u)))
    decreases |s|
  {
    hide Mul, Pow;
    if s == [] {
      MulUnit(c);
    } else {
      var n := |s| - 1;
      EvalSum(s[..n], a[..n], c, b[..n], u);
      var p := Pow(u, n);
      MulAdd(a[n], Mul(c, b[n]), p);
      MulAssoc(c, b[n], p);
      MulAdd(Eval(b[..n], u), Mul(b[n], p), c);
    }
  }

  /** Coefficients times the powers of a factor. */
  ghost predicate Scaled(t: seq<Cx>, y: seq<Cx>, f: Cx)
  {
    |t| == |y| && forall j :: 0 <= j < |y| ==> t[j] == Mul(Pow(f, j), y[j])
  }

  lemma {:induction false} EvalScaled(t: seq<Cx>, y: seq<Cx>, f: Cx, u: Cx)
    requires Scaled(t, y, f)
    ensures Eval(t, u) == Eval(y, Mul(f, u))
    decreases |y|
  {
    hide Add, Mul, Pow;
    if y != [] {
      var n := |y| - 1;
      EvalScaled(t[..n], y[..n], f, u);
      PowMul(f, u, n);
      MulAssoc(Pow(f, n), y[n], Pow(u, n));
      MulSwap3(Pow(f, n), y[n], Pow(u, n));
    }
  }

  // ----- a transform of four times the length -----

  /** The transform of four values, for the `t`-th power of the imaginary unit. */
  function Four(t: nat, a: Cx, b: Cx, c: Cx, d: Cx): Cx
  {
    if t == 0 then Add(Add(a, c), Add(b, d))
    else if t == 1 then Add(Sub(a, c), Mul(I, Sub(b, d)))
    else if t == 2 then Sub(Add(a, c), Add(b, d))
    else Sub(Sub(a, c), Mul(I, Sub(b, d)))
  }

  lemma FourIs(t: nat, a: Cx, b: Cx, c: Cx, d: Cx)
    requires t < 4
    ensures var q := Pow(I, t); Four(t, a, b, c, d) == Add(a, Mul(q, Add(b, Mul(q, Add(c, Mul(q, d))))))
  {
    hide Mul, Pow;
    PowI();
    var q := Pow(I, t);
    var x := Add(c, Mul(q, d));
    var y := Add(b, Mul(q, x));
    MulUnit(d);
    MulUnit(x);
    MulUnit(y);
    MulUnit(Sub(b, d));
  }

  lemma PowI()
    ensures Pow(I, 0) == One && Pow(I, 1) == I && Pow(I, 2) == Cx(-1.0, 0.0) && Pow(I, 3) == Cx(0.0, -1.0) && Pow(I, 4) == One
  {
    hide Mul, Pow;
    PowFirst(I);
    PowAdd(I, 1, 1);
    PowAdd(I, 1, 2);
    PowAdd(I, 1, 3);
    MulUnit(I);
    MulUnit(Pow(I, 2));
    MulUnit(Pow(I, 3));
  }

  lemma {:induction false} PowersOfI(t: nat, k: nat)
    ensures Pow(I, 4 * k + t) == Pow(I, t)
    decreases k
  {
    hide Mul, Pow;
    if k > 0 {
      PowersOfI(t, k - 1);
      PowI();
      PowAdd(I, 4, 4 * (k - 1) + t);
      MulUnit(Pow(I, 4 * (k - 1) + t));
    }
  }

  /** Values a quarter of the length apart, combined. */
  function FourAt(y: seq<Cx>, t: nat, m: nat, j: nat): Cx
    requires |y| == 4 * m && j < m
  {
    Four(t, y[j], y[m + j], y[2 * m + j], y[3 * m + j])
  }

  function Folded(y: seq<Cx>, t: nat, m: nat): (f: seq<Cx>)
    requires |y| == 4 * m
    ensures |f| == m
  {
    seq(m, j requires 0 <= j < m => FourAt(y, t, m, j))
  }

  function Combined(a: seq<Cx>, c: Cx, b: seq<Cx>): (s: seq<Cx>)
    requires |a| == |b|
    ensures |s| == |a| && Sums(s, a, c, b)
  {
    seq(|a|, j requires 0 <= j < |a| => Add(a[j], Mul(c, b[j])))
  }

  lemma Fold(y: seq<Cx>, u: Cx, m: nat, t: nat)
    requires |y| == 4 * m && t < 4 && Pow(u, m) == Pow(I, t)
    ensures Eval(y, u) == Eval(Folded(y, t, m), u)
  {
    hide *;
    var q := Pow(u, m);
    var a, b, c, d := y[..m], y[m..2 * m], y[2 * m..3 * m], y[3 * m..];
    Pieces(y, m);
    EvalConcat(a, y[m..], u);
    EvalConcat(b, y[2 * m..], u);
    EvalConcat(c, d, u);
    var s2 := Combined(c, q, d);
    var s1 := Combined(b, q, s2);
    EvalSum(s2, c, q, d, u);
    EvalSum(s1, b, q, s2, u);
    FoldedSums(y, m, t);
    EvalSum(Folded(y, t, m), a, q, s1, u);
  }

  lemma FoldedSums(y: seq<Cx>, m: nat, t: nat)
    requires |y| == 4 * m && t < 4
    ensures var q := Pow(I, t);
            Sums(Folded(y, t, m), y[..m], q, Combined(y[m..2 * m], q, Combined(y[2 * m..3 * m], q, y[3 * m..])))
  {
    hide Add, Mul, Pow, FourAt;
    var q := Pow(I, t);
    var s2 := Combined(y[2 * m..3 * m], q, y[3 * m..]);
    var s1 := Combined(y[m..2 * m], q, s2);
    forall j | 0 <= j < m ensures Folded(y, t, m)[j] == Add(y[..m][j], Mul(q, s1[j])) {
      FoldedAt(y, m, t, j);
    }
  }

  lemma FoldedAt(y: seq<Cx>, m: nat, t: nat, j: nat)
    requires |y| == 4 * m && t < 4 && j < m
    ensures var q := Pow(I, t);
            var s1 := Combined(y[m..2 * m], q, Combined(y[2 * m..3 * m], q, y[3 * m..]));
            FourAt(y, t, m, j) == Add(y[j], Mul(q, s1[j]))
  {
    hide Add, Mul, Pow, Four;
    FourIs(t, y[j], y[m + j], y[2 * m + j], y[3 * m + j]);
  }

  lemma Pieces(y: seq<Cx>, m: nat)
    requires |y| == 4 * m
    ensures y == y[..m] + y[m..] && y[m..] == y[m..2 * m] + y[2 * m..] && y[2 * m..] == y[2 * m..3 * m] + y[3 * m..]
  {}

  /** The coefficients of every fourth value: folded, and turned. */
  ghost predicate Turned(z: seq<Cx>, y: seq<Cx>, w: Cx, t: nat, m: nat)
    requires |y| == 4 * m
  {
    |z| == m && forall j :: 0 <= j < m ==> z[j] == Mul(Pow(Pow(w, j), t), FourAt(y, t, m, j))
  }

  lemma TurnedScaled(z: seq<Cx>, y: seq<Cx>, w: Cx, t: nat, m: nat)
    requires |y| == 4 * m && Turned(z, y, w, t, m)
    ensures Scaled(z, Folded(y, t, m), Pow(w, t))
  {
    hide Mul, Pow, FourAt;
    var f := Folded(y, t, m);
    forall j | 0 <= j < m ensures z[j] == Mul(Pow(Pow(w, t), j), f[j]) {
      PowSwap(w, t, j);
    }
  }

  /** One step of the transform: every fourth value is a value of the transform of those. */
  lemma FourTimesLong(y: seq<Cx>, z: seq<Cx>, w: Cx, m: nat, k: nat, t: nat)
    requires |y| == 4 * m && t < 4 && Pow(w, m) == I && Turned(z, y, w, t, m)
    ensures Eval(y, Pow(w, 4 * k + t)) == Eval(z, Pow(Pow(w, 4), k))
  {
    hide *;
    PowSwap(w, 4 * k + t, m);
    PowersOfI(t, k);
    Fold(y, Pow(w, 4 * k + t), m, t);
    PowAdd(w, t, 4 * k);
    FourShl(k);
    PowShl(w, k, 2);
    TurnedScaled(z, y, w, t, m);
    EvalScaled(z, Folded(y, t, m), Pow(w, t), Pow(Pow(w, 4), k));
  }

  lemma FourShl(k: nat)
    ensures Shl(k, 2) == 4 * k && Pow2(2) == 4
  {
    assert Shl(k, 1) == 2 * Shl(k, 0) && Pow2(1) == 2 * Pow2(0);
  }

  /** And of twice the length. */
  lemma TwoValues(y: seq<Cx>, z: Cx, w: Cx, t: nat)
    requires |y| == 2 && t < 2 && w == Cx(-1.0, 0.0) && z == if t == 0 then Add(y[0], y[1]) else Sub(y[0], y[1])
    ensures Eval(y, Pow(w, t)) == z
  {
    PowFirst(w);
    EvalTwo(y, Pow(w, t));
  }

  lemma EvalTwo(y: seq<Cx>, u: Cx)
    requires |y| == 2
    ensures Eval(y, u) == Add(y[0], Mul(y[1], u))
  {
    hide Mul;
    EvalOne(y[0], u);
    assert y == [y[0]] + [y[1]];
    EvalLast([y[0]], y[1], u);
    PowFirst(u);
  }

  lemma EvalOne(x: Cx, u: Cx)
    ensures Eval([x], u) == x
  {
    hide Mul;
    assert [x][..0] == [];
    PowFirst(u);
    MulUnit(x);
  }
}
