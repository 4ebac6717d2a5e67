/** The four-lane transform does in each lane what the scalar one does. */
module FftLanes {
  import opened BitStrings
  import opened BitReversal
  import opened Fft

  /** Four values next to each other, one of each transform. */
  datatype Quad = Quad(x0: real, x1: real, x2: real, x3: real)

  function Get(q: Quad, n: nat): real { if n == 0 then q.x0 else if n == 1 then q.x1 else if n == 2 then q.x2 else q.x3 }

  function Same(x: real): Quad { Quad(x, x, x, x) }

  function Times(a: real, b: real): real { a * b }

  /** Scalar arithmetic. */
  function RealOps(): Ops<real> {
    Ops((a: real, b: real) => a + b, (a: real, b: real) => a - b, (a: real, b: real) => Times(a, b),
        (a: real, b: real) => Times(-a, b), 2.0, 0.5)
  }

  function Times4(a: Quad, b: Quad): Quad {
    Quad(Times(a.x0, b.x0), Times(a.x1, b.x1), Times(a.x2, b.x2), Times(a.x3, b.x3))
  }

  /** Four lanes at once; the negated product is the product times minus one. */
  function QuadOps(): Ops<Quad> {
    Ops((a: Quad, b: Quad) => Quad(a.x0 + b.x0, a.x1 + b.x1, a.x2 + b.x2, a.x3 + b.x3),
        (a: Quad, b: Quad) => Quad(a.x0 - b.x0, a.x1 - b.x1, a.x2 - b.x2, a.x3 - b.x3),
        (a: Quad, b: Quad) => Times4(a, b), (a: Quad, b: Quad) => Times4(Same(-1.0), Times4(a, b)), Same(2.0), Same(0.5))
  }

  /** Lane `n` of one arithmetic is the other. */
  ghost predicate Hom(o: Ops<Quad>, p: Ops<real>, n: nat) {
    && (forall a, b :: Get(o.add(a, b), n) == p.add(Get(a, n), Get(b, n)))
    && (forall a, b :: Get(o.sub(a, b), n) == p.sub(Get(a, n), Get(b, n)))
    && (forall a, b :: Get(o.mul(a, b), n) == p.mul(Get(a, n), Get(b, n)))
    && (forall a, b :: Get(o.negMul(a, b), n) == p.negMul(Get(a, n), Get(b, n)))
    && Get(o.two, n) == p.two && Get(o.half, n) == p.half
  }

  lemma NegTimes(a: real, b: real)
    ensures Times(-a, b) == Times(-1.0, Times(a, b))
  {}

  lemma LanesHom(n: nat)
    ensures Hom(QuadOps(), RealOps(), n)
  {
    hide Times;
    var o, p := QuadOps(), RealOps();
    forall a, b ensures Get(o.negMul(a, b), n) == p.negMul(Get(a, n), Get(b, n)) {
      NegTimes(Get(a, n), Get(b, n));
    }
  }

  function Lane(s: seq<Quad>, n: nat): (r: seq<real>)
    ensures |r| == |s| && forall i :: 0 <= i < |s| ==> r[i] == Get(s[i], n)
  {
    if s == [] then [] else Lane(s[..|s| - 1], n) + [Get(s[|s| - 1], n)]
  }

  function KindLane(k: Kind<Quad>, n: nat): Kind<real> {
    match k
    case Plain => Plain
    case Half(w) => Half(Get(w, n))
    case Turn(a, b, c, d, e, f) => Turn(Get(a, n), Get(b, n), Get(c, n), Get(d, n), Get(e, n), Get(f, n))
    case Back(a, b, c, d, e, f) => Back(Get(a, n), Get(b, n), Get(c, n), Get(d, n), Get(e, n), Get(f, n))
  }

  function EightLane(e: Eight<Quad>, n: nat): Eight<real> {
    Eight(Get(e.r0, n), Get(e.i0, n), Get(e.r1, n), Get(e.i1, n), Get(e.r2, n), Get(e.i2, n), Get(e.r3, n), Get(e.i3, n))
  }

  lemma FlyLane(o: Ops<Quad>, p: Ops<real>, n: nat, k: Kind<Quad>, e: Eight<Quad>)
    requires Hom(o, p, n)
    ensures EightLane(Fly(o, k, e), n) == Fly(p, KindLane(k, n), EightLane(e, n))
  {
    hide Get;
  }

  lemma SetLane(s: seq<Quad>, i: nat, v: Quad, n: nat)
    requires i < |s|
    ensures Lane(s[i := v], n) == Lane(s, n)[i := Get(v, n)]
  {
    hide Get;
  }

  lemma WriteLane(s: seq<Quad>, l: nat, j: nat, e: Eight<Quad>, n: nat)
    requires j + 3 * l + 1 < |s|
    ensures Lane(Write8(s, l, j, e), n) == Write8(Lane(s, n), l, j, EightLane(e, n))
  {
    hide Get, Lane;
    var s1 := s[j := e.r0];
    var s2 := s1[j + 1 := e.i0];
    var s3 := s2[j + l := e.r1];
    var s4 := s3[j + l + 1 := e.i1];
    var s5 := s4[j + 2 * l := e.r2];
    var s6 := s5[j + 2 * l + 1 := e.i2];
    var s7 := s6[j + 3 * l := e.r3];
    SetLane(s, j, e.r0, n);
    SetLane(s1, j + 1, e.i0, n);
    SetLane(s2, j + l, e.r1, n);
    SetLane(s3, j + l + 1, e.i1, n);
    SetLane(s4, j + 2 * l, e.r2, n);
    SetLane(s5, j + 2 * l + 1, e.i2, n);
    SetLane(s6, j + 3 * l, e.r3, n);
    SetLane(s7, j + 3 * l + 1, e.i3, n);
  }

  lemma FlyAtLane(o: Ops<Quad>, p: Ops<real>, n: nat, s: seq<Quad>, k: Kind<Quad>, l: nat, j: nat)
    requires Hom(o, p, n) && j + 3 * l + 1 < |s|
    ensures Lane(FlyAt(o, s, k, l, j), n) == FlyAt(p, Lane(s, n), KindLane(k, n), l, j)
  {
    hide Hom, Fly, Get, Lane, KindLane, Write8;
    var e := Read8(s, l, j);
    FlyLane(o, p, n, k, e);
    WriteLane(s, l, j, Fly(o, k, e), n);
    assert EightLane(e, n) == Read8(Lane(s, n), l, j);
  }

  lemma {:induction false} RunLane(o: Ops<Quad>, p: Ops<real>, n: nat, s: seq<Quad>, k: Kind<Quad>, l: nat, j: nat, end: nat)
    requires Hom(o, p, n) && j <= end && Even(end - j) && end + 3 * l <= |s|
    ensures Lane(Run(o, s, k, l, j, end), n) == Run(p, Lane(s, n), KindLane(k, n), l, j, end)
    decreases end - j
  {
    hide Hom, FlyAt, Get, Lane, KindLane;
    if j < end {
      FlyAtLane(o, p, n, s, k, l, j);
      RunLane(o, p, n, FlyAt(o, s, k, l, j), k, l, j + 2, end);
    }
  }

  lemma EntryLane(o: Ops<Quad>, p: Ops<real>, n: nat, w: seq<Quad>, i: nat)
    requires Hom(o, p, n)
    ensures Get(Entry(o, w, i), n) == Entry(p, Lane(w, n), i)
  {
    hide Get;
  }

  lemma FactorsLane(o: Ops<Quad>, p: Ops<real>, n: nat, w: seq<Quad>, k1: nat)
    requires Hom(o, p, n)
    ensures KindLane(TurnAt(o, w, k1), n) == TurnAt(p, Lane(w, n), k1)
    ensures KindLane(BackAt(o, w, k1), n) == BackAt(p, Lane(w, n), k1)
  {
    hide Get, Lane, Entry;
    EntryLane(o, p, n, w, k1);
    EntryLane(o, p, n, w, k1 + 1);
    EntryLane(o, p, n, w, 2 * k1);
    EntryLane(o, p, n, w, 2 * k1 + 1);
    EntryLane(o, p, n, w, 2 * k1 + 2);
    EntryLane(o, p, n, w, 2 * k1 + 3);
  }

  lemma BlockLane(o: Ops<Quad>, p: Ops<real>, n: nat, s: seq<Quad>, w: seq<Quad>, l: nat, k: nat, k1: nat)
    requires Hom(o, p, n) && Even(l) && k + 8 * l <= |s|
    ensures Lane(Block(o, s, w, l, k, k1), n) == Block(p, Lane(s, n), Lane(w, n), l, k, k1)
  {
    hide Hom, Run, Get, Lane, KindLane, TurnAt, BackAt, Even;
    EvenRange(l, k);
    EvenRange(l, k + 4 * l);
    FactorsLane(o, p, n, w, k1);
    RunLane(o, p, n, s, TurnAt(o, w, k1), l, k, k + l);
    RunLane(o, p, n, Run(o, s, TurnAt(o, w, k1), l, k, k + l), BackAt(o, w, k1), l, k + 4 * l, k + 5 * l);
  }

  lemma {:induction false} BlocksLane(o: Ops<Quad>, p: Ops<real>, n: nat, s: seq<Quad>, w: seq<Quad>, size: nat, l: nat, k: nat, k1: nat)
    requires Hom(o, p, n) && Even(l) && l > 0 && size <= |s|
    ensures Lane(Blocks(o, s, w, size, l, k, k1), n) == Blocks(p, Lane(s, n), Lane(w, n), size, l, k, k1)
    decreases size - k
  {
    hide Hom, Block, Get, Lane, Even;
    if k + 8 * l <= size {
      BlockLane(o, p, n, s, w, l, k, k1 + 2);
      BlocksLane(o, p, n, Block(o, s, w, l, k, k1 + 2), w, size, l, k + 8 * l, k1 + 2);
    }
  }

  lemma StageLane(o: Ops<Quad>, p: Ops<real>, n: nat, s: seq<Quad>, w: seq<Quad>, size: nat, l: nat)
    requires Hom(o, p, n) && Even(l) && l > 0 && 8 * l <= size <= |s|
    ensures Lane(Stage(o, s, w, size, l), n) == Stage(p, Lane(s, n), Lane(w, n), size, l)
  {
    hide Hom, Run, Blocks, Get, Lane, Even, Entry;
    EvenRange(l, 0);
    EvenRange(l, 4 * l);
    var a := Run(o, s, Plain, l, 0, l);
    RunLane(o, p, n, s, Plain, l, 0, l);
    EntryLane(o, p, n, w, 2);
    RunLane(o, p, n, a, Half(Entry(o, w, 2)), l, 4 * l, 5 * l);
    BlocksLane(o, p, n, Opening(o, s, w, l), w, size, l, 8 * l, 0);
  }

  lemma PairLane(o: Ops<Quad>, p: Ops<real>, n: nat, s: seq<Quad>, l: nat, j: nat)
    requires Hom(o, p, n) && j + l + 1 < |s|
    ensures Lane(PairAt(o, s, l, j), n) == PairAt(p, Lane(s, n), l, j)
  {
    hide Get, Lane;
    var xr, xi := o.sub(s[j], s[j + l]), o.sub(s[j + 1], s[j + l + 1]);
    var yr, yi := o.add(s[j], s[j + l]), o.add(s[j + 1], s[j + l + 1]);
    SetLane(s, j, yr, n);
    SetLane(s[j := yr], j + 1, yi, n);
    SetLane(s[j := yr][j + 1 := yi], j + l, xr, n);
    SetLane(s[j := yr][j + 1 := yi][j + l := xr], j + l + 1, xi, n);
  }

  lemma {:induction false} PairsLane(o: Ops<Quad>, p: Ops<real>, n: nat, s: seq<Quad>, l: nat, j: nat)
    requires Hom(o, p, n) && j <= l && Even(l - j) && 2 * l <= |s|
    ensures Lane(Pairs(o, s, l, j), n) == Pairs(p, Lane(s, n), l, j)
    decreases l - j
  {
    hide Hom, PairAt, Get, Lane;
    if j < l {
      PairLane(o, p, n, s, l, j);
      PairsLane(o, p, n, PairAt(o, s, l, j), l, j + 2);
    }
  }

  lemma {:induction false} LevelsLane(o: Ops<Quad>, p: Ops<real>, n: nat, s: seq<Quad>, w: seq<Quad>, e: nat, i: nat)
    requires Hom(o, p, n) && 1 <= i < e && |s| == Pow2(e)
    ensures Lane(Levels(o, s, w, e, i), n) == Levels(p, Lane(s, n), Lane(w, n), e, i)
    decreases e - i
  {
    hide Hom, Stage, Run, Pairs, Get, Lane, Even, Pow2;
    Widths(i, e);
    EvenRange(Pow2(i), 0);
    if i + 3 <= e {
      StageLane(o, p, n, s, w, |s|, Pow2(i));
      LevelsLane(o, p, n, Stage(o, s, w, |s|, Pow2(i)), w, e, i + 2);
    } else if i + 2 == e {
      RunLane(o, p, n, s, Plain, Pow2(i), 0, Pow2(i));
    } else {
      PairsLane(o, p, n, s, Pow2(i), 0);
    }
  }

  lemma MixAtLane(o: Ops<Quad>, p: Ops<real>, n: nat, s: seq<Quad>, c: seq<Quad>, j: nat, k: nat, nc: nat, kk: nat)
    requires Hom(o, p, n) && j + 1 < |s| && k + 1 < |s|
    ensures Lane(MixAt(o, s, c, j, k, nc, kk), n) == MixAt(p, Lane(s, n), Lane(c, n), j, k, nc, kk)
  {
    hide Get, Lane, Entry;
    EntryLane(o, p, n, c, nc);
    EntryLane(o, p, n, c, kk);
    var wkr, wki := o.sub(o.half, Entry(o, c, nc)), Entry(o, c, kk);
    var xr, xi := o.sub(s[j], s[k]), o.add(s[j + 1], s[k + 1]);
    var yr, yi := Re(o, wkr, wki, xr, xi), Im(o, wkr, wki, xr, xi);
    var t := s[j := o.sub(s[j], yr)];
    var u := t[j + 1 := o.sub(t[j + 1], yi)];
    var v := u[k := o.add(u[k], yr)];
    SetLane(s, j, o.sub(s[j], yr), n);
    SetLane(t, j + 1, o.sub(t[j + 1], yi), n);
    SetLane(u, k, o.add(u[k], yr), n);
    SetLane(v, k + 1, o.sub(v[k + 1], yi), n);
  }

  lemma {:induction false} MixLane(o: Ops<Quad>, p: Ops<real>, n: nat, s: seq<Quad>, c: seq<Quad>, j: nat, nc: nat, kk: nat, ks: nat)
    requires Hom(o, p, n) && 2 * j <= |s| && 2 <= j && Even(j) && Even(|s| / 2) && Even(|s|)
    ensures Lane(Mix(o, s, c, j, nc, kk, ks), n) == Mix(p, Lane(s, n), Lane(c, n), j, nc, kk, ks)
    decreases |s| - j
  {
    hide Hom, MixAt, Get, Lane, Even;
    if 2 * j < |s| && nc >= ks {
      MixStep(|s|, j);
      MixAtLane(o, p, n, s, c, j, |s| - j, nc - ks, kk);
      MixLane(o, p, n, MixAt(o, s, c, j, |s| - j, nc - ks, kk), c, j + 2, nc - ks, kk + ks, ks);
    }
  }

  lemma ReorderedLane(s: seq<Quad>, n: nat, q: nat)
    requires |s| == Pow2(q + 1)
    ensures Lane(Reordered(s, q), n) == Reordered(Lane(s, n), q)
  {
    hide Get, Lane, BitRev, Pow2;
    forall z | 0 <= z < |s| ensures Lane(Reordered(s, q), n)[z] == Reordered(Lane(s, n), q)[z] {
      PowNext(q);
      BitRevBound(z / 2, q);
    }
  }

  lemma CrossingLane(o: Ops<Quad>, p: Ops<real>, n: nat, s: seq<Quad>)
    requires Hom(o, p, n) && |s| >= 2
    ensures Lane(Crossing(o, s), n) == Crossing(p, Lane(s, n))
  {
    hide Get, Lane;
    SetLane(s, 0, o.add(s[0], s[1]), n);
    SetLane(s[0 := o.add(s[0], s[1])], 1, o.sub(s[0], s[1]), n);
  }

  lemma RdftLane(o: Ops<Quad>, p: Ops<real>, n: nat, s: seq<Quad>, w: seq<Quad>, c: seq<Quad>, e: nat)
    requires Hom(o, p, n) && 1 <= e && |s| == Pow2(e)
    ensures Lane(Rdft(o, s, w, c, e), n) == Rdft(p, Lane(s, n), Lane(w, n), Lane(c, n), e)
  {
    hide Hom, Levels, Mix, Reordered, Crossing, Get, Lane, Even, Pow2;
    PowNext(e - 1);
    PowPositive(e - 1);
    var t := s;
    if e >= 3 {
      ReorderedLane(s, n, e - 1);
      var a := Reordered(s, e - 1);
      LevelsLane(o, p, n, a, w, e, 1);
      var b := Levels(o, a, w, e, 1);
      MixStart(e);
      var ks := 2 * |c| / (|s| / 2);
      MixLane(o, p, n, b, c, 2, |c|, ks, ks);
      t := MixAll(o, b, c, e);
    } else if e == 2 {
      LevelsLane(o, p, n, s, w, e, 1);
      t := Levels(o, s, w, e, 1);
    }
    CrossingLane(o, p, n, t);
  }

  /** A table read with every entry copied to all lanes. */
  function Broadcast(w: seq<real>): (b: seq<Quad>)
    ensures |b| == |w| && forall i :: 0 <= i < |w| ==> b[i] == Same(w[i])
  {
    if w == [] then [] else Broadcast(w[..|w| - 1]) + [Same(w[|w| - 1])]
  }

  lemma BroadcastLane(w: seq<real>, n: nat)
    ensures Lane(Broadcast(w), n) == w
  {}

  /** Each lane of the four-lane transform is the scalar transform of that lane, on the same tables. */
  lemma FourLanes(s: seq<Quad>, w: seq<real>, c: seq<real>, e: nat, n: nat)
    requires 1 <= e && |s| == Pow2(e)
    ensures Lane(Rdft(QuadOps(), s, Broadcast(w), Broadcast(c), e), n) == Rdft(RealOps(), Lane(s, n), w, c, e)
  {
    hide *;
    LanesHom(n);
    BroadcastLane(w, n);
    BroadcastLane(c, n);
    LaneSize(s, n);
    RdftLane(QuadOps(), RealOps(), n, s, Broadcast(w), Broadcast(c), e);
  }

  lemma LaneSize(s: seq<Quad>, n: nat)
    ensures |Lane(s, n)| == |s|
  {}

  // ----- a length the first stage does not serve -----

  /** A butterfly of width 2 changes eight values. */
  lemma FlyTwo(o: Ops<real>, s: seq<real>, k: Kind<real>, j: nat, z: nat)
    requires j + 8 <= |s| && z < |s|
    ensures !(j <= z < j + 8) ==> FlyAt(o, s, k, 2, j)[z] == s[z]
    ensures z == j + 4 ==> FlyAt(o, s, k, 2, j)[z] == Fly(o, k, Read8(s, 2, j)).r2
  {
    hide Fly;
  }

  lemma OneBlock(o: Ops<real>, s: seq<real>, w: seq<real>)
    requires |s| == 32 && 8 <= |w|
    ensures Even(2) && Stage(o, s, w, 32, 2) == Block(o, Opening(o, s, w, 2), w, 2, 16, 2)
    ensures Opening(o, s, w, 2) == FlyAt(o, FlyAt(o, s, Plain, 2, 0), Half(w[2]), 2, 8)
  {
    hide Run, FlyAt, Block, Opening, Blocks, TurnAt, BackAt;
    TwoIs();
    StageIs(o, s, w, 32, 2);
    OpeningTwo(o, s, w);
    var t := Opening(o, s, w, 2);
    BlocksNext(o, t, w, 32, 2, 16, 0);
    BlocksNext(o, Block(o, t, w, 2, 16, 2), w, 32, 2, 32, 2);
  }

  lemma BlockTwo(o: Ops<real>, t: seq<real>, w: seq<real>)
    requires |t| == 32
    ensures Even(2) && Block(o, t, w, 2, 16, 2) == FlyAt(o, FlyAt(o, t, TurnAt(o, w, 2), 2, 16), BackAt(o, w, 2), 2, 24)
  {
    hide Run, FlyAt, TurnAt, BackAt;
    OneFly(o, t, TurnAt(o, w, 2), 16);
    OneFly(o, FlyAt(o, t, TurnAt(o, w, 2), 2, 16), BackAt(o, w, 2), 24);
  }

  /** The first stage of a transform of 16 values changes values behind them. */
  lemma Overrun(s: seq<real>, w: seq<real>)
    requires |s| == 32 && 8 <= |w| && w[2] != 0.0
    requires s[16] == 1.0 && forall z :: 17 <= z < 24 ==> s[z] == 0.0
    ensures Even(2) && Reach(4) == 32
    ensures Stage(RealOps(), s, w, 32, 2)[20] == w[2] != s[20]
  {
    hide FlyAt, Fly, Block, Opening, Stage;
    var o := RealOps();
    OneBlock(o, s, w);
    var a := FlyAt(o, s, Plain, 2, 0);
    var t := Opening(o, s, w, 2);
    var k := TurnAt(o, w, 2);
    forall z | 16 <= z < 24 ensures t[z] == s[z] {
      FlyTwo(o, s, Plain, 0, z);
      FlyTwo(o, a, Half(w[2]), 8, z);
    }
    FlyTwo(o, t, k, 16, 20);
    FlyTwo(o, FlyAt(o, t, k, 2, 16), BackAt(o, w, 2), 24, 20);
    BlockTwo(o, t, w);
    UnitFly(k, Read8(t, 2, 16), w);
  }

  lemma UnitFly(k: Kind<real>, e: Eight<real>, w: seq<real>)
    requires e == Eight(1.0, 0.0, 0.0, 0.0, 0.0, 0.0, 0.0, 0.0) && 8 <= |w| && k == TurnAt(RealOps(), w, 2)
    ensures Fly(RealOps(), k, e).r2 == w[2]
  {}
}
