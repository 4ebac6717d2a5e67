/** The four-lane transform on its own memory: four inputs interleaved in one array of reals. */
module FftFour {
  import opened BitStrings
  import opened BitReversal
  import opened Fft
  import opened FftLanes

  /** Value `i` of all four lanes. */
  function QuadAt(s: seq<real>, i: nat): Quad
    requires 4 * i + 3 < |s|
  {
    Quad(s[4 * i], s[4 * i + 1], s[4 * i + 2], s[4 * i + 3])
  }

  function QuadsOf(s: seq<real>): (q: seq<Quad>)
    ensures |q| == |s| / 4
  {
    seq(|s| / 4, i requires 0 <= i < |s| / 4 => QuadAt(s, i))
  }

  function Size(a: array<real>): nat { a.Length / 4 }

  ghost function Quads(a: array<real>): (q: seq<Quad>)
    reads a
    ensures |q| == Size(a)
  {
    QuadsOf(a[..])
  }

  /** A load of four values. */
  function L4(a: array<real>, i: nat): (v: Quad)
    requires i < Size(a)
    reads a
    ensures v == Quads(a)[i]
  {
    Quad(a[4 * i], a[4 * i + 1], a[4 * i + 2], a[4 * i + 3])
  }

  /** A store of four values. */
  method S4(a: array<real>, i: nat, v: Quad)
    requires i < Size(a)
    modifies a
    ensures Quads(a) == old(Quads(a))[i := v]
  {
    a[4 * i], a[4 * i + 1], a[4 * i + 2], a[4 * i + 3] := v.x0, v.x1, v.x2, v.x3;
    forall k | 0 <= k < Size(a) && k != i ensures Quads(a)[k] == old(Quads(a))[k] {
      Aside(k, i);
    }
  }

  lemma Aside(k: nat, i: nat)
    requires k != i
    ensures 4 * k + 3 < 4 * i || 4 * i + 3 < 4 * k
  {}

  /** A table entry in all lanes. */
  function B4(w: seq<real>, i: nat): (v: Quad)
    requires i < |w|
    ensures v == Broadcast(w)[i] == Entry(QuadOps(), Broadcast(w), i)
  {
    Same(w[i])
  }

  method Store8(a: array<real>, l: nat, j: nat, e: Eight<Quad>)
    requires l >= 2 && j + 3 * l + 1 < Size(a)
    modifies a
    ensures Quads(a) == Write8(old(Quads(a)), l, j, e)
  {
    hide L4, Quads, QuadsOf, Write8;
    ghost var was := Quads(a);
    S4(a, j, e.r0);
    S4(a, j + 1, e.i0);
    S4(a, j + 2 * l, e.r2);
    S4(a, j + 2 * l + 1, e.i2);
    S4(a, j + l, e.r1);
    S4(a, j + l + 1, e.i1);
    S4(a, j + 3 * l, e.r3);
    S4(a, j + 3 * l + 1, e.i3);
    Stored(was, Quads(a), l, j, e);
  }

  method Load8(o: Ops<Quad>, a: array<real>, l: nat, j: nat) returns (x: Parts<Quad>)
    requires j + 3 * l + 1 < Size(a)
    ensures x == PartsOf(o, Read8(Quads(a), l, j))
  {
    hide L4, Quads, QuadsOf;
    var j1 := j + l;
    var j2 := j1 + l;
    var j3 := j2 + l;
    x := Parts(o.add(L4(a, j), L4(a, j1)), o.add(L4(a, j + 1), L4(a, j1 + 1)), o.sub(L4(a, j), L4(a, j1)), o.sub(L4(a, j + 1), L4(a, j1 + 1)),
               o.add(L4(a, j2), L4(a, j3)), o.add(L4(a, j2 + 1), L4(a, j3 + 1)), o.sub(L4(a, j2), L4(a, j3)), o.sub(L4(a, j2 + 1), L4(a, j3 + 1)));
  }

  method PlainFly(o: Ops<Quad>, a: array<real>, l: nat, j: nat)
    requires l >= 2 && j + 3 * l + 1 < Size(a)
    modifies a
    ensures Quads(a) == FlyAt(o, old(Quads(a)), Plain, l, j)
  {
    hide Read8, Write8;
    var x := Load8(o, a, l, j);
    Store8(a, l, j, Eight(o.add(x.x0r, x.x2r), o.add(x.x0i, x.x2i), o.sub(x.x1r, x.x3i), o.add(x.x1i, x.x3r),
                          o.sub(x.x0r, x.x2r), o.sub(x.x0i, x.x2i), o.add(x.x1r, x.x3i), o.sub(x.x1i, x.x3r)));
  }

  method HalfFly(o: Ops<Quad>, a: array<real>, wk1r: Quad, l: nat, j: nat)
    requires l >= 2 && j + 3 * l + 1 < Size(a)
    modifies a
    ensures Quads(a) == FlyAt(o, old(Quads(a)), Half(wk1r), l, j)
  {
    hide Read8, Write8;
    var x := Load8(o, a, l, j);
    var yr, yi := o.sub(x.x1r, x.x3i), o.add(x.x1i, x.x3r);
    var zr, zi := o.add(x.x3i, x.x1r), o.sub(x.x3r, x.x1i);
    Store8(a, l, j, Eight(o.add(x.x0r, x.x2r), o.add(x.x0i, x.x2i), o.mul(wk1r, o.sub(yr, yi)), o.mul(wk1r, o.add(yr, yi)),
                          o.sub(x.x2i, x.x0i), o.sub(x.x0r, x.x2r), o.mul(wk1r, o.sub(zi, zr)), o.mul(wk1r, o.add(zi, zr))));
  }

  method TurnFly(o: Ops<Quad>, a: array<real>, wk1r: Quad, wk1i: Quad, wk2r: Quad, wk2i: Quad, wk3r: Quad, wk3i: Quad, l: nat, j: nat)
    requires l >= 2 && j + 3 * l + 1 < Size(a)
    modifies a
    ensures Quads(a) == FlyAt(o, old(Quads(a)), Turn(wk1r, wk1i, wk2r, wk2i, wk3r, wk3i), l, j)
  {
    hide Read8, Write8;
    var x := Load8(o, a, l, j);
    var dr, di := o.sub(x.x0r, x.x2r), o.sub(x.x0i, x.x2i);
    var yr, yi := o.sub(x.x1r, x.x3i), o.add(x.x1i, x.x3r);
    var zr, zi := o.add(x.x1r, x.x3i), o.sub(x.x1i, x.x3r);
    Store8(a, l, j, Eight(o.add(x.x0r, x.x2r), o.add(x.x0i, x.x2i),
                          o.sub(o.mul(wk1r, yr), o.mul(wk1i, yi)), o.add(o.mul(wk1r, yi), o.mul(wk1i, yr)),
                          o.sub(o.mul(wk2r, dr), o.mul(wk2i, di)), o.add(o.mul(wk2r, di), o.mul(wk2i, dr)),
                          o.sub(o.mul(wk3r, zr), o.mul(wk3i, zi)), o.add(o.mul(wk3r, zi), o.mul(wk3i, zr))));
  }

  method BackFly(o: Ops<Quad>, a: array<real>, wk1r: Quad, wk1i: Quad, wk2r: Quad, wk2i: Quad, wk3r: Quad, wk3i: Quad, l: nat, j: nat)
    requires l >= 2 && j + 3 * l + 1 < Size(a)
    modifies a
    ensures Quads(a) == FlyAt(o, old(Quads(a)), Back(wk1r, wk1i, wk2r, wk2i, wk3r, wk3i), l, j)
  {
    hide Read8, Write8;
    var x := Load8(o, a, l, j);
    var dr, di := o.sub(x.x0r, x.x2r), o.sub(x.x0i, x.x2i);
    var yr, yi := o.sub(x.x1r, x.x3i), o.add(x.x1i, x.x3r);
    var zr, zi := o.add(x.x1r, x.x3i), o.sub(x.x1i, x.x3r);
    Store8(a, l, j, Eight(o.add(x.x0r, x.x2r), o.add(x.x0i, x.x2i),
                          o.sub(o.mul(wk1r, yr), o.mul(wk1i, yi)), o.add(o.mul(wk1r, yi), o.mul(wk1i, yr)),
                          o.sub(o.negMul(wk2i, dr), o.mul(wk2r, di)), o.add(o.negMul(wk2i, di), o.mul(wk2r, dr)),
                          o.sub(o.mul(wk3r, zr), o.mul(wk3i, zi)), o.add(o.mul(wk3r, zi), o.mul(wk3i, zr))));
  }

  /** Two complex values of every lane change places. */
  method Swap(a: array<real>, x: nat, y: nat)
    requires x + 1 < Size(a) && y + 1 < Size(a) && Even(x) && Even(y) && x != y
    modifies a
    ensures Quads(a) == Exchange(old(Quads(a)), x, y)
  {
    hide L4, Quads, QuadsOf;
    EvenApart(x, y);
    var xr, xi := L4(a, x), L4(a, x + 1);
    var yr, yi := L4(a, y), L4(a, y + 1);
    S4(a, x, yr);
    S4(a, x + 1, yi);
    S4(a, y, xr);
    S4(a, y + 1, xi);
  }

  method Step(a: array<real>, x: nat, y: nat, ghost was: seq<Quad>, ghost ip: seq<nat>, ghost m: nat, ghost mid: nat,
                 ghost n: nat, ghost k: nat, ghost j: nat, ghost b: nat)
    requires Spread(ip, m, mid, n) && j < m && k < m && j != k && n <= |was| && b < mid && k < |ip| && j < |ip|
    requires Quads(a) == Crossed(was, ip, m, mid, n, k, j, b)
    requires x == At(ip, m, k, b, j) && y == At(ip, m, j, BitReversal.Turn(mid, b), k)
    modifies a
    ensures Quads(a) == Crossed(was, ip, m, mid, n, k, j, b + 1)
  {
    hide *;
    CrossedNext(was, ip, m, mid, n, k, j, b);
    Swap(a, x, y);
  }

  method CrossFour(a: array<real>, ip: seq<nat>, m: nat, ghost n: nat, k: nat, j: nat)
    requires Spread(ip, m, 4, n) && j < m && k < m && j != k && n <= Size(a)
    modifies a
    ensures Quads(a) == Crossed(old(Quads(a)), ip, m, 4, n, k, j, 4)
  {
    hide *;
    SpreadMid(ip, m, 4, n);
    ghost var was := Quads(a);
    CrossedNone(was, ip, m, 4, n, k, j);
    Offs(m);
    var m2 := 2 * m;
    var j1, k1: int := 2 * j + ip[k], 2 * k + ip[j];
    forall b: nat | b < 4
      ensures At(ip, m, k, b, j) == ip[k] + Off(m, b) + 2 * j
      ensures At(ip, m, j, BitReversal.Turn(4, b), k) == ip[j] + Off(m, BitReversal.Turn(4, b)) + 2 * k
    {
      AtIs(ip, m, k, b, j);
      AtIs(ip, m, j, BitReversal.Turn(4, b), k);
    }
    Step(a, j1, k1, was, ip, m, 4, n, k, j, 0);
    j1, k1 := j1 + m2, k1 + 2 * m2;
    Step(a, j1, k1, was, ip, m, 4, n, k, j, 1);
    j1, k1 := j1 + m2, k1 - m2;
    Step(a, j1, k1, was, ip, m, 4, n, k, j, 2);
    j1, k1 := j1 + m2, k1 + 2 * m2;
    Step(a, j1, k1, was, ip, m, 4, n, k, j, 3);
  }

  method CrossTwo(a: array<real>, ip: seq<nat>, m: nat, ghost n: nat, k: nat, j: nat)
    requires Spread(ip, m, 2, n) && j < m && k < m && j != k && n <= Size(a)
    modifies a
    ensures Quads(a) == Crossed(old(Quads(a)), ip, m, 2, n, k, j, 2)
  {
    hide *;
    SpreadMid(ip, m, 2, n);
    ghost var was := Quads(a);
    CrossedNone(was, ip, m, 2, n, k, j);
    Offs(m);
    var m2 := 2 * m;
    var j1, k1 := 2 * j + ip[k], 2 * k + ip[j];
    AtIs(ip, m, k, 0, j);
    AtIs(ip, m, j, 0, k);
    AtIs(ip, m, k, 1, j);
    AtIs(ip, m, j, 1, k);
    Step(a, j1, k1, was, ip, m, 2, n, k, j, 0);
    j1, k1 := j1 + m2, k1 + m2;
    Step(a, j1, k1, was, ip, m, 2, n, k, j, 1);
  }

  method CrossSelf(a: array<real>, ip: seq<nat>, m: nat, ghost n: nat, k: nat, ghost was: seq<Quad>)
    requires Progress(Quads(a), was, ip, m, 4, n, k, k) && k < m
    modifies a
    ensures Progress(Quads(a), was, ip, m, 4, n, k + 1, 0)
  {
    hide *;
    ProgressParts(Quads(a), was, ip, m, 4, n, k, k);
    ProgressDiagonal(Quads(a), was, ip, m, 4, n, k);
    SpreadMid(ip, m, 4, n);
    PlaceIs(m, 4, k, 1, k);
    PlaceIs(m, 4, k, 2, k);
    AtFits(ip, m, 4, n, k, 1, k);
    AtFits(ip, m, 4, n, k, 2, k);
    AtDistinct(ip, m, 4, n, k, 1, k, k, 2, k);
    AtIs(ip, m, k, 1, k);
    AtIs(ip, m, k, 2, k);
    Offs(m);
    var m2 := 2 * m;
    var j1 := 2 * k + m2 + ip[k];
    Swap(a, j1, j1 + m2);
  }

  /** `bitrv2_4`. */
  method Bitrv2(n: nat, ghost p: nat, ip: array<nat>, a: array<real>)
    requires n == Size(a) == Pow2(p) && p >= 2 && ip.Length >= Pow2((p - 2) / 2) && (ip as object) != (a as object)
    modifies ip, a
    ensures Permuted(Quads(a), old(Quads(a)), p - 1)
  {
    hide *;
    ghost var was := Quads(a);
    var l, m;
    ghost var t, w;
    l, m, t, w := RowOffsets(n, p, ip);
    var rows := ip[..];
    OffsetsSpread(rows, t, w);
    MidIs(w);
    Times8(t);
    Pow2Less(t + 3, p - t);
    Pow2Less(p - t, t + 3);
    ProgressBegin(was, rows, m, Pow2(w), n);
    if m * 8 == l {
      var k := 0;
      while k < m
        invariant 0 <= k <= m && rows == ip[..] && Progress(Quads(a), was, rows, m, 4, n, k, 0)
      {
        var j := 0;
        while j < k
          invariant 0 <= j <= k && rows == ip[..] && Progress(Quads(a), was, rows, m, 4, n, k, j)
        {
          ProgressPair(Quads(a), was, rows, m, 4, n, k, j);
          CrossFour(a, rows, m, n, k, j);
          j := j + 1;
        }
        CrossSelf(a, rows, m, n, k, was);
        k := k + 1;
      }
    } else {
      var k := 1;
      while k < m
        invariant 1 <= k <= m && rows == ip[..] && Progress(Quads(a), was, rows, m, 2, n, k, 0)
      {
        var j := 0;
        while j < k
          invariant 0 <= j <= k && rows == ip[..] && Progress(Quads(a), was, rows, m, 2, n, k, j)
        {
          ProgressPair(Quads(a), was, rows, m, 2, n, k, j);
          CrossTwo(a, rows, m, n, k, j);
          j := j + 1;
        }
        ProgressDiagonal(Quads(a), was, rows, m, 2, n, k);
        k := k + 1;
      }
    }
    AllDone(Quads(a), was, rows, t, w);
  }

  method Opens(o: Ops<Quad>, a: array<real>, w: seq<real>, l: nat)
    requires Even(l) && l >= 2 && 8 * l <= Size(a) && 2 < |w|
    modifies a
    ensures Quads(a) == Opening(o, old(Quads(a)), Broadcast(w), l)
  {
    hide Run, FlyAt, Even;
    ghost var was := Quads(a);
    EvenRange(l, 0);
    EvenRange(l, 4 * l);
    var j := 0;
    while j < l
      invariant 0 <= j <= l && Even(l - j)
      invariant Run(o, Quads(a), Plain, l, j, l) == Run(o, was, Plain, l, 0, l)
    {
      RunNext(o, Quads(a), Plain, l, j, l);
      PlainFly(o, a, l, j);
      j := j + 2;
    }
    RunNext(o, Quads(a), Plain, l, l, l);
    ghost var mid := Quads(a);
    var m := 4 * l;
    var wk1r := B4(w, 2);
    j := m;
    while j < l + m
      invariant m <= j <= 5 * l && Even(5 * l - j)
      invariant Run(o, Quads(a), Half(wk1r), l, j, 5 * l) == Run(o, mid, Half(wk1r), l, m, 5 * l)
    {
      RunNext(o, Quads(a), Half(wk1r), l, j, 5 * l);
      HalfFly(o, a, wk1r, l, j);
      j := j + 2;
    }
    RunNext(o, Quads(a), Half(wk1r), l, 5 * l, 5 * l);
  }

  method BlockLoops(o: Ops<Quad>, a: array<real>, w: seq<real>, l: nat, k: nat, k1: nat)
    requires Even(l) && l >= 2 && k + 8 * l <= Size(a) && 2 * k1 + 3 < |w|
    modifies a
    ensures Quads(a) == Block(o, old(Quads(a)), Broadcast(w), l, k, k1)
  {
    hide Run, FlyAt, Even;
    ghost var bw := Broadcast(w);
    ghost var was := Quads(a);
    EvenRange(l, k);
    EvenRange(l, k + 4 * l);
    var m := 4 * l;
    var wk2r, wk2i, wk1r, wk1i := B4(w, k1), B4(w, k1 + 1), B4(w, 2 * k1), B4(w, 2 * k1 + 1);
    var wk3r := o.sub(wk1r, o.mul(o.mul(o.two, wk2i), wk1i));
    var wk3i := o.sub(o.mul(o.mul(o.two, wk2i), wk1r), wk1i);
    ghost var turn := TurnAt(o, bw, k1);
    assert turn == Turn(wk1r, wk1i, wk2r, wk2i, wk3r, wk3i);
    var j := k;
    while j < l + k
      invariant k <= j <= k + l && Even(k + l - j)
      invariant Run(o, Quads(a), turn, l, j, k + l) == Run(o, was, turn, l, k, k + l)
    {
      RunNext(o, Quads(a), turn, l, j, k + l);
      TurnFly(o, a, wk1r, wk1i, wk2r, wk2i, wk3r, wk3i, l, j);
      j := j + 2;
    }
    RunNext(o, Quads(a), turn, l, k + l, k + l);
    ghost var mid := Quads(a);
    wk1r, wk1i := B4(w, 2 * k1 + 2), B4(w, 2 * k1 + 3);
    wk3r := o.sub(wk1r, o.mul(o.mul(o.two, wk2r), wk1i));
    wk3i := o.sub(o.mul(o.mul(o.two, wk2r), wk1r), wk1i);
    ghost var back := BackAt(o, bw, k1);
    assert back == Back(wk1r, wk1i, wk2r, wk2i, wk3r, wk3i);
    j := k + m;
    while j < l + k + m
      invariant k + m <= j <= k + 5 * l && Even(k + 5 * l - j)
      invariant Run(o, Quads(a), back, l, j, k + 5 * l) == Run(o, mid, back, l, k + 4 * l, k + 5 * l)
    {
      RunNext(o, Quads(a), back, l, j, k + 5 * l);
      BackFly(o, a, wk1r, wk1i, wk2r, wk2i, wk3r, wk3i, l, j);
      j := j + 2;
    }
    RunNext(o, Quads(a), back, l, k + 5 * l, k + 5 * l);
  }

  method FirstBlock(o: Ops<Quad>, a: array<real>, w: seq<real>, j: nat, k1: nat)
    requires j + 16 <= Size(a) && 2 * k1 + 3 < |w|
    modifies a
    ensures Even(2) && Quads(a) == Block(o, old(Quads(a)), Broadcast(w), 2, j, k1)
  {
    hide FlyAt, Run;
    ghost var bw := Broadcast(w);
    ghost var was := Quads(a);
    var wk2r, wk2i, wk1r, wk1i := B4(w, k1), B4(w, k1 + 1), B4(w, 2 * k1), B4(w, 2 * k1 + 1);
    var wk3r := o.sub(wk1r, o.mul(o.mul(o.two, wk2i), wk1i));
    var wk3i := o.sub(o.mul(o.mul(o.two, wk2i), wk1r), wk1i);
    OneFly(o, Quads(a), TurnAt(o, bw, k1), j);
    TurnFly(o, a, wk1r, wk1i, wk2r, wk2i, wk3r, wk3i, 2, j);
    wk1r, wk1i := B4(w, 2 * k1 + 2), B4(w, 2 * k1 + 3);
    wk3r := o.sub(wk1r, o.mul(o.mul(o.two, wk2r), wk1i));
    wk3i := o.sub(o.mul(o.mul(o.two, wk2r), wk1r), wk1i);
    OneFly(o, Quads(a), BackAt(o, bw, k1), j + 8);
    BackFly(o, a, wk1r, wk1i, wk2r, wk2i, wk3r, wk3i, 2, j + 8);
  }

  /** `cft1st_4`. */
  method Cft1st(o: Ops<Quad>, a: array<real>, w: seq<real>, n: nat, ghost e: nat)
    requires 4 <= e && n == Pow2(e) && Size(a) >= Reach(e) && |w| >= Reach(e) / 4
    modifies a
    ensures Even(2) && 16 <= Reach(e) <= Size(a) && Quads(a) == Stage(o, old(Quads(a)), Broadcast(w), Reach(e), 2)
  {
    hide *;
    ghost var bw := Broadcast(w);
    ghost var m := Reach(e);
    ghost var f := if e < 5 then 5 else e;
    ReachIs(e);
    TwoIs();
    BlockPlace(1, 1, f);
    ghost var was := Quads(a);
    OneFly(o, was, Plain, 0);
    PlainFly(o, a, 2, 0);
    OneFly(o, Quads(a), Half(B4(w, 2)), 8);
    HalfFly(o, a, B4(w, 2), 2, 8);
    OpeningTwo(o, was, bw);
    StageIs(o, was, bw, m, 2);
    ghost var start := Quads(a);
    var k1, j, more := 0, 16, true;
    ghost var q: nat := 1;
    while more
      invariant Even(2) && 1 <= q && j == Shl(q, 4) && k1 == 2 * (q - 1) && more == (j < m)
      invariant Blocks(o, Quads(a), bw, m, 2, j, k1) == Blocks(o, start, bw, m, 2, 16, 0)
      decreases m - j
    {
      BlockPlace(q, 1, f);
      BlocksNext(o, Quads(a), bw, m, 2, j, k1);
      k1 := k1 + 2;
      FirstBlock(o, a, w, j, k1);
      j := j + 16;
      q := q + 1;
      more := j < n;
    }
    BlocksNext(o, Quads(a), bw, m, 2, j, k1);
  }

  /** `cftmdl_4`. */
  method CftMdl(o: Ops<Quad>, a: array<real>, w: seq<real>, l: nat, ghost i: nat, ghost e: nat)
    requires 1 <= i && i + 3 <= e && l == Pow2(i) && Size(a) == Pow2(e) && |w| >= Pow2(e - 2)
    modifies a
    ensures Even(l) && l > 0 && 8 * l <= Size(a) && Quads(a) == Stage(o, old(Quads(a)), Broadcast(w), Size(a), l)
  {
    hide *;
    ghost var bw := Broadcast(w);
    Widths(i, e);
    PowPositive(i);
    BlockPlace(1, i, e);
    BlockPlace(0, i, e);
    WidthTwo(i);
    Pow2Mono(2, e - 2);
    FourIs();
    var n := Size(a);
    ghost var was := Quads(a);
    StageIs(o, was, bw, n, l);
    Opens(o, a, w, l);
    ghost var start := Quads(a);
    var m2 := 8 * l;
    var k1, k := 0, m2;
    ghost var q: nat := 1;
    while k < n
      invariant 1 <= q && k == Shl(q, i + 3) && k1 == 2 * (q - 1)
      invariant Blocks(o, Quads(a), bw, n, l, k, k1) == Blocks(o, start, bw, n, l, m2, 0)
      decreases n - k
    {
      BlockPlace(q, i, e);
      BlocksNext(o, Quads(a), bw, n, l, k, k1);
      k1 := k1 + 2;
      BlockLoops(o, a, w, l, k, k1);
      k := k + m2;
      q := q + 1;
    }
    BlocksNext(o, Quads(a), bw, n, l, k, k1);
  }

  method LastFour(o: Ops<Quad>, a: array<real>, l: nat)
    requires Even(l) && l >= 2 && 4 * l == Size(a)
    modifies a
    ensures Even(l - 0) && Quads(a) == Run(o, old(Quads(a)), Plain, l, 0, l)
  {
    hide Run, FlyAt, Even;
    ghost var was := Quads(a);
    EvenRange(l, 0);
    var j := 0;
    while j < l
      invariant 0 <= j <= l && Even(l - j)
      invariant Run(o, Quads(a), Plain, l, j, l) == Run(o, was, Plain, l, 0, l)
    {
      RunNext(o, Quads(a), Plain, l, j, l);
      PlainFly(o, a, l, j);
      j := j + 2;
    }
    RunNext(o, Quads(a), Plain, l, l, l);
  }

  method Pair(o: Ops<Quad>, a: array<real>, l: nat, j: nat)
    requires l >= 2 && j + l + 1 < Size(a)
    modifies a
    ensures Quads(a) == PairAt(o, old(Quads(a)), l, j)
  {
    hide L4, Quads, QuadsOf;
    var j1 := j + l;
    var x0r, x0i := o.sub(L4(a, j), L4(a, j1)), o.sub(L4(a, j + 1), L4(a, j1 + 1));
    S4(a, j, o.add(L4(a, j), L4(a, j1)));
    S4(a, j + 1, o.add(L4(a, j + 1), L4(a, j1 + 1)));
    S4(a, j1, x0r);
    S4(a, j1 + 1, x0i);
  }

  method LastTwo(o: Ops<Quad>, a: array<real>, l: nat)
    requires Even(l) && l >= 2 && 2 * l == Size(a)
    modifies a
    ensures Even(l - 0) && Quads(a) == Pairs(o, old(Quads(a)), l, 0)
  {
    hide Pairs, Even;
    ghost var was := Quads(a);
    EvenRange(l, 0);
    var j := 0;
    while j < l
      invariant 0 <= j <= l && Even(l - j)
      invariant Pairs(o, Quads(a), l, j) == Pairs(o, was, l, 0)
    {
      PairsNext(o, Quads(a), l, j);
      Pair(o, a, l, j);
      j := j + 2;
    }
    PairsNext(o, Quads(a), l, l);
  }

  /** `cftfsub_4`. */
  method CftfSub(o: Ops<Quad>, a: array<real>, w: seq<real>, ghost e: nat)
    requires 2 <= e && e != 4 && Size(a) == Pow2(e) && (e >= 4 ==> |w| >= Pow2(e - 2))
    modifies a
    ensures Quads(a) == Levels(o, old(Quads(a)), Broadcast(w), e, 1)
  {
    hide *;
    ghost var bw := Broadcast(w);
    ghost var was := Quads(a);
    var n := Size(a);
    var l := 2;
    ghost var i: nat := 1;
    TwoIs();
    Powers();
    LevelGuard(1, e);
    if n > 8 {
      ReachIs(e);
      Cft1st(o, a, w, n, e);
      LevelsNext(o, was, bw, e, 1);
      l := 8;
      i := 3;
      LevelGuard(3, e);
      while l * 4 < n
        invariant 3 <= i < e && l == Pow2(i) && (l * 4 < n <==> i + 3 <= e) && (l * 4 == n <==> i + 2 == e)
        invariant Levels(o, Quads(a), bw, e, i) == Levels(o, was, bw, e, 1)
        decreases e - i
      {
        LevelsNext(o, Quads(a), bw, e, i);
        CftMdl(o, a, w, l, i, e);
        FourTimes(i);
        l := l * 4;
        i := i + 2;
        LevelGuard(i, e);
      }
    }
    LevelsNext(o, Quads(a), bw, e, i);
    WidthTwo(i);
    if l * 4 == n {
      LastFour(o, a, l);
    } else {
      LastTwo(o, a, l);
    }
  }

  method MixPair(o: Ops<Quad>, a: array<real>, c: seq<real>, j: nat, k: nat, nc: nat, kk: nat)
    requires j + 1 < k && k + 1 < Size(a) && nc < |c| && kk < |c|
    modifies a
    ensures Quads(a) == MixAt(o, old(Quads(a)), Broadcast(c), j, k, nc, kk)
  {
    hide L4, Quads, QuadsOf;
    var wkr, wki := o.sub(o.half, B4(c, nc)), B4(c, kk);
    var xr, xi := o.sub(L4(a, j), L4(a, k)), o.add(L4(a, j + 1), L4(a, k + 1));
    var yr := o.sub(o.mul(wkr, xr), o.mul(wki, xi));
    var yi := o.add(o.mul(wkr, xi), o.mul(wki, xr));
    S4(a, j, o.sub(L4(a, j), yr));
    S4(a, j + 1, o.sub(L4(a, j + 1), yi));
    S4(a, k, o.add(L4(a, k), yr));
    S4(a, k + 1, o.sub(L4(a, k + 1), yi));
  }

  /** `rftfsub_4`. */
  method RftfSub(o: Ops<Quad>, a: array<real>, c: seq<real>, ghost e: nat)
    requires 3 <= e && Size(a) == Pow2(e) && |c| >= Pow2(e - 2)
    modifies a
    ensures Quads(a) == MixAll(o, old(Quads(a)), Broadcast(c), e)
  {
    hide *;
    ghost var bc := Broadcast(c);
    MixStart(e);
    Quarter(e);
    var n := Size(a);
    ghost var was := Quads(a);
    var m := n / 2;
    Stride(|c|, m);
    var nc, ks := |c|, 2 * |c| / m;
    var kk, j, k := ks, 2, n;
    ghost var t: nat := 0;
    ProdNext(0, ks);
    EvenLess(m);
    MixAllIs(o, was, bc, e);
    while j < m
      invariant 0 <= nc && j == 2 * (t + 1) && 2 * j <= n && Even(j) && k == n - 2 * t && nc == |c| - Prod(t, ks) && kk == Prod(t + 1, ks)
      invariant Mix(o, Quads(a), bc, j, nc, kk, ks) == Mix(o, was, bc, 2, |c|, ks, ks)
      decreases m - j
    {
      ProdNext(t, ks);
      ProdNext(t + 1, ks);
      HalfLess(t, m);
      ProdMono(t + 2, m / 2, ks);
      ProdMono(1, t + 1, ks);
      MixNext(o, Quads(a), bc, j, nc, kk, ks);
      k := k - 2;
      nc := nc - ks;
      MixPair(o, a, c, j, k, nc, kk);
      kk := kk + ks;
      j := j + 2;
      t := t + 1;
    }
    MixNext(o, Quads(a), bc, j, nc, kk, ks);
  }

  method Cross(o: Ops<Quad>, a: array<real>)
    requires Size(a) >= 2
    modifies a
    ensures Quads(a) == Crossing(o, old(Quads(a)))
  {
    hide L4, Quads, QuadsOf;
    var xi := o.sub(L4(a, 0), L4(a, 1));
    S4(a, 0, o.add(L4(a, 0), L4(a, 1)));
    S4(a, 1, xi);
  }

  method RdftFour(o: Ops<Quad>, ghost e: nat, a: array<real>, ip: array<nat>, w: seq<real>, c: seq<real>)
    requires 1 <= e && e != 4 && Size(a) == Pow2(e) && (ip as object) != (a as object)
    requires e >= 3 ==> ip.Length >= Pow2((e - 2) / 2) && |w| >= Pow2(e - 2) && |c| >= Pow2(e - 2)
    modifies a, ip
    ensures Quads(a) == Rdft(o, old(Quads(a)), Broadcast(w), Broadcast(c), e)
  {
    hide *;
    ghost var bc := Broadcast(c);
    ghost var bw := Broadcast(w);
    ghost var was := Quads(a);
    var n := Size(a);
    SizeGuard(e);
    RdftIs(o, was, bw, bc, e);
    if n > 4 {
      Bitrv2(n, e, ip, a);
      ReorderedIs(was, Quads(a), e - 1);
      CftfSub(o, a, w, e);
      RftfSub(o, a, c, e);
    } else if n == 4 {
      CftfSub(o, a, w, e);
    }
    Cross(o, a);
  }

  /** Lane `n` of the memory. */
  function LaneOf(s: seq<real>, n: nat): (r: seq<real>)
    requires n < 4
    ensures |r| == |s| / 4
  {
    seq(|s| / 4, i requires 0 <= i < |s| / 4 => s[4 * i + n])
  }

  lemma LaneOfIs(s: seq<real>, n: nat)
    requires n < 4
    ensures LaneOf(s, n) == Lane(QuadsOf(s), n)
  {
    hide Lane;
    forall i | 0 <= i < |s| / 4 ensures LaneOf(s, n)[i] == Lane(QuadsOf(s), n)[i] {
      assert QuadsOf(s)[i] == QuadAt(s, i);
    }
  }

  /** `rdft4`: every lane ends up with what the scalar transform makes of it. */
  method Rdft4(ghost e: nat, a: array<real>, ip: array<nat>, w: seq<real>, c: seq<real>)
    requires 1 <= e && e != 4 && a.Length == 4 * Pow2(e) && (ip as object) != (a as object)
    requires e >= 3 ==> ip.Length >= Pow2((e - 2) / 2) && |w| >= Pow2(e - 2) && |c| >= Pow2(e - 2)
    modifies a, ip
    ensures forall n: nat :: n < 4 ==>
              |old(LaneOf(a[..], n))| == Pow2(e) && LaneOf(a[..], n) == Rdft(RealOps(), old(LaneOf(a[..], n)), w, c, e)
  {
    hide *;
    ghost var was := a[..];
    Quarters(a, e);
    RdftFour(QuadOps(), e, a, ip, w, c);
    Quarters(a, e);
    forall n: nat | n < 4
      ensures |LaneOf(was, n)| == Pow2(e) && LaneOf(a[..], n) == Rdft(RealOps(), LaneOf(was, n), w, c, e)
    {
      LaneOfIs(was, n);
      LaneOfIs(a[..], n);
      FourLanes(QuadsOf(was), w, c, e, n);
    }
  }

  lemma Quarters(a: array<real>, e: nat)
    requires a.Length == 4 * Pow2(e)
    ensures Size(a) == Pow2(e) && |a[..]| / 4 == Pow2(e) && Quads(a) == QuadsOf(a[..]) && |QuadsOf(a[..])| == Pow2(e)
  {
    hide QuadsOf, Pow2;
  }
}
