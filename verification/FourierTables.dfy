/** The tables of the transform: what the generator fills in is what the transform needs. */
module FourierTables {
  import opened BitStrings
  import opened BitReversal
  import opened Fft
  import opened FftLanes
  import opened Dft
  import opened Fourier

  /** Cosine and sine at multiples of the angle whose point on the circle is `zeta`. */
  ghost predicate Turns(cos: nat -> real, sin: nat -> real, zeta: Cx)
  {
    OnCircle(zeta) && forall j: nat {:trigger cos(j)} {:trigger sin(j)} :: Cx(cos(j), sin(j)) == Pow(zeta, j)
  }

  lemma TurnsAt(cos: nat -> real, sin: nat -> real, zeta: Cx, j: nat)
    requires Turns(cos, sin, zeta)
    ensures Cx(cos(j), sin(j)) == Pow(zeta, j) && OnCircle(zeta)
  {
    hide Pow, OnCircle;
    var x := cos(j);
  }

  /** The cells of the first table that have been filled, from both ends and in the middle. */
  predicate Filled(k: nat, i: nat, h: nat) { k < i || k == h || k + i > 2 * h }

  ghost predicate Powers(w: seq<real>, zeta: Cx, i: nat, h: nat)
  {
    |w| == 4 * h && forall k :: 0 <= k < 2 * h && Filled(k, i, h) ==> Cval(w, k) == Pow(zeta, 2 * k)
  }

  /** The power at the mirror image is the point mirrored at the diagonal. */
  lemma Diagonal(zeta: Cx, n: nat, j: nat)
    requires OnCircle(zeta) && Pow(zeta, n) == I && j <= n
    ensures Pow(zeta, n - j) == Cx(Pow(zeta, j).im, Pow(zeta, j).re)
  {
    hide Pow, Mul, OnCircle;
    Mirrored(zeta, n, j, I);
    MulUnit(Conj(Pow(zeta, j)));
  }

  lemma PowersNext(w: seq<real>, z: seq<real>, zeta: Cx, i: nat, h: nat)
    requires Powers(w, zeta, i, h) && 1 <= i < h && |z| == |w| && OnCircle(zeta) && Pow(zeta, 4 * h) == I
    requires Cx(z[2 * i], z[2 * i + 1]) == Pow(zeta, 2 * i)
    requires Cx(z[4 * h - 2 * i + 1], z[4 * h - 2 * i]) == Pow(zeta, 2 * i)
    requires forall x :: 0 <= x < |w| && x / 2 != i && x / 2 != 2 * h - i ==> z[x] == w[x]
    ensures Powers(z, zeta, i + 1, h)
  {
    hide Pow, OnCircle;
    forall k | 0 <= k < 2 * h && Filled(k, i + 1, h) ensures Cval(z, k) == Pow(zeta, 2 * k) {
      if k == i {
      } else if k == 2 * h - i {
        Diagonal(zeta, 4 * h, 2 * i);
      } else {
        assert Filled(k, i, h);
        CvalSame(w, z, k);
      }
    }
  }

  lemma MiddlePower(zeta: Cx, h: nat)
    requires Pow(zeta, 4 * h) == I
    ensures Pow(zeta, 2 * h).re == Pow(zeta, 2 * h).im
  {
    hide Pow, Mul;
    PowTwice(zeta, 2 * h);
    RootOfI(Pow(zeta, 2 * h));
  }

  lemma PowersFirst(w: seq<real>, zeta: Cx, h: nat)
    requires h >= 1 && |w| == 4 * h && w[0] == 1.0 && w[1] == 0.0 && Cx(w[2 * h], w[2 * h + 1]) == Pow(zeta, 2 * h)
    ensures Powers(w, zeta, 1, h)
  {
    PowFirst(zeta);
    hide Pow;
    forall k | 0 <= k < 2 * h && Filled(k, 1, h) ensures Cval(w, k) == Pow(zeta, 2 * k) {}
  }

  /** With all cells filled, reordering gives the table. */
  lemma TableMade(w: seq<real>, z: seq<real>, zeta: Cx, m: nat)
    requires m >= 1 && Powers(w, zeta, Pow2(m - 1), Pow2(m - 1)) && Permuted(z, w, m) && OnCircle(zeta) && Pow(zeta, Pow2(m + 1)) == I
    ensures Table(z, Mul(zeta, zeta), m)
  {
    hide Pow, Mul, BitRev, OnCircle, Pow2;
    PowNext(m - 1);
    PowNext(m);
    var root := Mul(zeta, zeta);
    MulCircle(zeta, zeta);
    PowTwice(zeta, Pow2(m));
    forall b | 0 <= b < Pow2(m) ensures Cval(z, b) == Pow(root, BitRev(b, m)) {
      BitRevBound(b, m);
      PowTwice(zeta, BitRev(b, m));
      assert Cell(z, 2 * b) == Cell(w, 2 * BitRev(b, m));
      assert Filled(BitRev(b, m), Pow2(m - 1), Pow2(m - 1));
    }
  }

  /** The loop of `makewt`. */
  method FillWt(w: array<real>, cos: nat -> real, sin: nat -> real, ghost h: nat, ghost zeta: Cx)
    requires h >= 1 && w.Length == 4 * h && Turns(cos, sin, zeta) && Pow(zeta, 4 * h) == I && Powers(w[..], zeta, 1, h)
    modifies w
    ensures Powers(w[..], zeta, h, h)
  {
    hide *;
    var nw := w.Length;
    var nwh, j := nw / 2, 2;
    ghost var i: nat := 1;
    while j < nwh
      invariant 1 <= i <= h && j == 2 * i && Powers(w[..], zeta, i, h)
      decreases nwh - j
    {
      TurnsAt(cos, sin, zeta, j);
      var x, y := cos(j), sin(j);
      ghost var was := w[..];
      w[j] := x;
      w[j + 1] := y;
      w[nw - j] := y;
      w[nw - j + 1] := x;
      PowersNext(was, w[..], zeta, i, h);
      i := i + 1;
      j := j + 2;
    }
  }

  /** `makewt`. */
  method MakeWt(w: array<real>, ip: array<nat>, cos: nat -> real, sin: nat -> real, ghost m: nat, ghost zeta: Cx)
    requires w.Length == Pow2(m + 1) && (m >= 2 ==> ip.Length >= Pow2((m - 1) / 2)) && (ip as object) != (w as object)
    requires Turns(cos, sin, zeta) && Pow(zeta, Pow2(m + 1)) == I
    modifies w, ip
    ensures m >= 1 ==> Table(w[..], Mul(zeta, zeta), m)
  {
    hide *;
    var nw := w.Length;
    SizesOf(m);
    if nw > 2 {
      var nwh := nw / 2;
      ghost var h := Pow2(m - 1);
      MiddlePower(zeta, h);
      TurnsAt(cos, sin, zeta, nwh);
      w[0] := 1.0;
      w[1] := 0.0;
      w[nwh] := cos(nwh);
      w[nwh + 1] := w[nwh];
      PowersFirst(w[..], zeta, h);
      if nwh > 2 {
        FillWt(w, cos, sin, h, zeta);
        ghost var was := w[..];
        Bitrv2(nw, m + 1, ip, w);
        TableMade(was, w[..], zeta, m);
      } else {
        PermutedOne(w[..]);
        TurnsAt(cos, sin, zeta, 0);
        TableMade(w[..], w[..], zeta, 1);
      }
    }
  }

  lemma SizesOf(m: nat)
    ensures Pow2(m + 1) == 2 * Pow2(m) && (Pow2(m + 1) > 2 <==> m >= 1)
    ensures m >= 1 ==> Pow2(m + 1) == 4 * Pow2(m - 1) && Pow2(m - 1) >= 1 && (Pow2(m) > 2 <==> m >= 2) && (m < 2 ==> Pow2(m - 1) == 1)
  {
    hide Pow2;
    PowNext(m);
    PowZero(0);
    if m >= 1 {
      PowNext(m - 1);
      PowPositive(m - 1);
      WidthTwo(m);
    }
    if m >= 2 { WidthTwo(m - 1); }
  }

  /** Of two cells the order stays. */
  lemma PermutedOne(w: seq<real>)
    requires |w| == 4
    ensures Permuted(w, w, 1)
  {
    hide BitRev;
    TwoIs();
    PowZero(0);
    PowNext(1);
    BitRevNone(1);
    BitRevNone(0);
    BitRevHalf(0, 0);
  }

  /** Half cosines in the first half, half sines from the end down. */
  ghost predicate HalfTurns(c: seq<real>, rho: Cx, j: nat)
  {
    && |c| % 2 == 0 && j <= |c| / 2
    && forall t :: 1 <= t < j ==> c[t] == Pow(rho, t).re / 2.0 && c[|c| - t] == Pow(rho, t).im / 2.0
  }

  /** That makes it the table of the conversion. */
  lemma HalfTableMade(c: seq<real>, rho: Cx)
    requires |c| >= 2 && HalfTurns(c, rho, |c| / 2) && c[|c| / 2] == Pow(rho, |c| / 2).re / 2.0
    requires OnCircle(rho) && Pow(rho, |c|) == I
    ensures HalfTable(c, rho, 2 * |c|)
  {
    hide Pow, OnCircle;
    var n, ks := 2 * |c|, 2 * |c| / (2 * |c|);
    forall t | 1 <= t && 2 * t < n
      ensures Entry(RealOps(), c, NatLess(|c|, Prod(t, ks))) == Pow(rho, t).im / 2.0 && Entry(RealOps(), c, Prod(t, ks)) == Pow(rho, t).re / 2.0
    {
      ProdUnit(t);
      HalfEntry(c, rho, t);
    }
  }

  lemma ProdUnit(t: nat)
    ensures Prod(t, 1) == t
  {}

  lemma HalfEntry(c: seq<real>, rho: Cx, t: nat)
    requires |c| >= 2 && HalfTurns(c, rho, |c| / 2) && c[|c| / 2] == Pow(rho, |c| / 2).re / 2.0
    requires OnCircle(rho) && Pow(rho, |c|) == I && 1 <= t < |c|
    ensures c[|c| - t] == Pow(rho, t).im / 2.0 && c[t] == Pow(rho, t).re / 2.0
  {
    hide Pow, OnCircle, Mul;
    var h := |c| / 2;
    if t == h {
      PowTwice(rho, h);
      RootOfI(Pow(rho, h));
    } else if t > h {
      Diagonal(rho, |c|, |c| - t);
    }
  }

  /** `makect`. */
  method MakeCt(c: array<real>, cos: nat -> real, sin: nat -> real, ghost rho: Cx)
    requires c.Length >= 2 && c.Length % 2 == 0 && Turns(cos, sin, rho) && Pow(rho, c.Length) == I
    modifies c
    ensures HalfTable(c[..], rho, 2 * c.Length)
  {
    hide *;
    var nc := c.Length;
    if nc > 1 {
      var nch := nc / 2;
      TurnsAt(cos, sin, rho, nch);
      c[0] := cos(nch);
      c[nch] := 0.5 * c[0];
      HalvesFirst(c[..], rho);
      var j := 1;
      while j < nch
        invariant 1 <= j <= nch && HalfTurns(c[..], rho, j) && c[nch] == Pow(rho, nch).re / 2.0
      {
        TurnsAt(cos, sin, rho, j);
        ghost var was := c[..];
        c[j] := 0.5 * cos(j);
        c[nc - j] := 0.5 * sin(j);
        HalvesNext(was, c[..], rho, j);
        j := j + 1;
      }
      HalfTableMade(c[..], rho);
    }
  }

  lemma HalvesFirst(c: seq<real>, rho: Cx)
    requires |c| % 2 == 0 && |c| >= 2
    ensures HalfTurns(c, rho, 1)
  {}

  lemma HalvesNext(was: seq<real>, c: seq<real>, rho: Cx, j: nat)
    requires HalfTurns(was, rho, j) && |c| == |was| && 1 <= j < |c| / 2
    requires c[j] == Pow(rho, j).re / 2.0 && c[|c| - j] == Pow(rho, j).im / 2.0
    requires forall x :: 0 <= x < |c| && x != j && x != |c| - j ==> c[x] == was[x]
    ensures HalfTurns(c, rho, j + 1)
  {
    hide Pow;
  }

  /** `Generate_FFT_Tables`, for transforms of `1 << p` values. */
  method GenerateTables(ip: array<nat>, cos: nat -> real, sin: nat -> real, ghost p: nat, n: nat, ghost rho: Cx)
    returns (w: array<real>, c: array<real>)
    requires p >= 3 && n == Pow2(p) && ip.Length >= Pow2((p - 2) / 2)
    requires Turns(cos, sin, rho) && Pow(rho, Pow2(p - 2)) == I
    modifies ip
    ensures fresh(w) && fresh(c) && w.Length == c.Length == n / 4 && Tables(w[..], c[..], p, rho)
  {
    hide *;
    QuarterIs(p);
    w := new real[n / 4];
    MakeWt(w, ip, cos, sin, p - 3, rho);
    c := new real[n / 4];
    MakeCt(c, cos, sin, rho);
    TurnsAt(cos, sin, rho, 0);
    TablesMade(w[..], c[..], p, rho);
  }

  lemma QuarterIs(p: nat)
    requires p >= 3
    ensures Pow2(p) / 4 == Pow2(p - 2) && Pow2(p) == 4 * Pow2(p - 2) && Pow2(p - 2) >= 2 && Pow2(p - 2) % 2 == 0
    ensures Pow2(p - 1) == 2 * Pow2(p - 2) && (p >= 5 ==> Pow2((p - 2) / 2) >= Pow2((p - 4) / 2))
  {
    hide Pow2;
    PowNext(p - 1);
    PowNext(p - 2);
    PowNext(p - 3);
    WidthTwo(p - 2);
    if p >= 5 { Pow2Mono((p - 4) / 2, (p - 2) / 2); }
  }

  lemma TablesMade(w: seq<real>, c: seq<real>, p: nat, rho: Cx)
    requires p >= 3 && OnCircle(rho) && Pow(rho, Pow2(p - 2)) == I && (p >= 4 ==> Table(w, Mul(rho, rho), p - 3))
    requires Pow2(p - 1) > 0 && HalfTable(c, rho, Pow2(p - 1))
    ensures Tables(w, c, p, rho)
  {
    hide HalfTable, Table, Pow, Mul, OnCircle;
  }

  /** Tables made for a longer transform serve a shorter one, whose root is a power of theirs. */
  lemma TablesShorter(w: seq<real>, c: seq<real>, p: nat, d: nat, rho: Cx)
    requires p >= 3 && Tables(w, c, p + d, rho) && |c| == Pow2(p + d - 2)
    ensures Tables(w, c, p, Pow(rho, Pow2(d)))
  {
    hide *;
    var r := Pow(rho, Pow2(d));
    TablesParts(w, c, p + d, rho);
    PowCircle(rho, Pow2(d));
    PowShl(rho, Pow2(p - 2), d);
    ShlPow2(p - 2);
    ShlPow2(p + d - 2);
    ShlShl(1, p - 2, d);
    if p >= 4 {
      PowMul(rho, rho, Pow2(d));
      TableShorter(w, Mul(rho, rho), p - 3, d);
    }
    PowPositive(p - 1);
    HalfTableShorter(c, rho, p - 1, d);
    TablesMade(w, c, p, r);
  }

  lemma TablesParts(w: seq<real>, c: seq<real>, p: nat, rho: Cx)
    requires p >= 3 && Tables(w, c, p, rho)
    ensures OnCircle(rho) && Pow(rho, Pow2(p - 2)) == I && (p >= 4 ==> Table(w, Mul(rho, rho), p - 3))
    ensures Pow2(p - 1) > 0 && HalfTable(c, rho, Pow2(p - 1))
  {
    hide HalfTable, Table, Pow, Mul, OnCircle;
  }

  lemma HalfTableShorter(c: seq<real>, rho: Cx, q: nat, d: nat)
    requires q >= 1 && Pow2(q + d) > 0 && Pow2(q) > 0 && HalfTable(c, rho, Pow2(q + d)) && |c| == Pow2(q + d - 1)
    ensures HalfTable(c, Pow(rho, Pow2(d)), Pow2(q))
  {
    hide Pow, Entry, Pow2, Prod, NatLess, HalfTable, Shl;
    PowNext(q + d - 1);
    var r, n := Pow(rho, Pow2(d)), Pow2(q);
    Strides(q, d);
    forall t | 1 <= t && 2 * t < n
      ensures Entry(RealOps(), c, NatLess(|c|, Prod(t, Pow2(d)))) == Pow(r, t).im / 2.0 && Entry(RealOps(), c, Prod(t, Pow2(d))) == Pow(r, t).re / 2.0
    {
      ShiftedIn(t, q, d);
      ProdShl(t, d);
      ProdUnit(Shl(t, d));
      HalfTableAt(c, rho, Pow2(q + d), Shl(t, d));
      PowShl(rho, t, d);
    }
    Pow2Mono(q - 1, q + d - 1);
    PowNext(q - 1);
    HalfTableIs(c, r, n);
  }

  lemma HalfTableIs(c: seq<real>, rho: Cx, n: nat)
    requires n > 0 && |c| >= n / 2
    requires forall t :: 1 <= t && 2 * t < n ==>
               && Entry(RealOps(), c, NatLess(|c|, Prod(t, 2 * |c| / n))) == Pow(rho, t).im / 2.0
               && Entry(RealOps(), c, Prod(t, 2 * |c| / n)) == Pow(rho, t).re / 2.0
    ensures HalfTable(c, rho, n)
  {
    hide Pow, Entry, Prod, NatLess;
  }

  /** The stride through the table. */
  lemma Strides(q: nat, d: nat)
    requires q >= 1
    ensures Pow2(q + d) == 2 * Pow2(q + d - 1) && Pow2(q) > 0 && Pow2(q + d) / Pow2(q) == Pow2(d)
    ensures Pow2(q + d) > 0 && Pow2(q + d) / Pow2(q + d) == 1
  {
    hide Pow2, Shl;
    PowNext(q + d - 1);
    PowPositive(q);
    PowPositive(q + d);
    ShlMul(Pow2(d), q);
    ShlPow2(d);
    ShlShl(1, d, q);
    ShlPow2(q + d);
    DivTimes(Pow2(d), Pow2(q));
  }

  lemma DivTimes(a: nat, b: nat)
    requires b > 0
    ensures a * b / b == a
  {
    var q := a * b / b;
    assert 0 <= a * b - q * b < b;
    if q < a { Apart(a, q, b); }
    if a < q { Apart(q, a, b); }
  }

  lemma Apart(x: nat, y: nat, b: nat)
    requires x > y
    ensures x * b >= y * b + b
  {
    assert x * b == y * b + (x - y) * b;
    Multiple(x - y, b);
  }

  lemma Multiple(n: nat, b: nat)
    requires n >= 1
    ensures n * b >= b
  {}

  lemma ProdShl(t: nat, d: nat)
    ensures Prod(t, Pow2(d)) == Shl(t, d)
  {
    hide Pow2, Shl;
    ShlMul(t, d);
  }

  lemma ShiftedIn(t: nat, q: nat, d: nat)
    requires q >= 1 && 1 <= t && 2 * t < Pow2(q)
    ensures 1 <= Shl(t, d) && 2 * Shl(t, d) < Pow2(q + d)
  {
    hide *;
    ShlMono(1, t, d);
    ShlPow2(d);
    PowPositive(d);
    ShlPlus(t, t, d);
    ShlMono(2 * t + 1, Pow2(q), d);
    ShlPlus(2 * t, 1, d);
    ShlPow2(q);
    ShlShl(1, q, d);
    ShlPow2(q + d);
  }
}
