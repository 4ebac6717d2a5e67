/** The real transform over any arithmetic: stages of butterflies as a specification, and the loops in place. */
module Fft {
  import opened BitStrings
  import opened BitReversal

  /** What the routines compute with: `negMul` is the product with the first factor negated. */
  datatype Ops<!E> = Ops(add: (E, E) -> E, sub: (E, E) -> E, mul: (E, E) -> E, negMul: (E, E) -> E, two: E, half: E)

  // ----- butterflies -----

  /** Four complex values. */
  datatype Eight<E> = Eight(r0: E, i0: E, r1: E, i1: E, r2: E, i2: E, r3: E, i3: E)

  datatype Kind<E> =
    | Plain
    | Half(w: E)
    | Turn(w1r: E, w1i: E, w2r: E, w2i: E, w3r: E, w3i: E)
    | Back(w1r: E, w1i: E, w2r: E, w2i: E, w3r: E, w3i: E)

  /** `(wr + i wi) * (xr + i xi)`, as written out. */
  function Re<E>(o: Ops<E>, wr: E, wi: E, xr: E, xi: E): E { o.sub(o.mul(wr, xr), o.mul(wi, xi)) }
  function Im<E>(o: Ops<E>, wr: E, wi: E, xr: E, xi: E): E { o.add(o.mul(wr, xi), o.mul(wi, xr)) }

  function Fly<E>(o: Ops<E>, k: Kind<E>, e: Eight<E>): Eight<E> {
    var x0r, x0i := o.add(e.r0, e.r1), o.add(e.i0, e.i1);
    var x1r, x1i := o.sub(e.r0, e.r1), o.sub(e.i0, e.i1);
    var x2r, x2i := o.add(e.r2, e.r3), o.add(e.i2, e.i3);
    var x3r, x3i := o.sub(e.r2, e.r3), o.sub(e.i2, e.i3);
    var dr, di := o.sub(x0r, x2r), o.sub(x0i, x2i);
    var yr, yi := o.sub(x1r, x3i), o.add(x1i, x3r);
    var zr, zi := o.add(x1r, x3i), o.sub(x1i, x3r);
    var s0, t0 := o.add(x0r, x2r), o.add(x0i, x2i);
    match k
    case Plain => Eight(s0, t0, yr, yi, dr, di, zr, zi)
    case Half(w) =>
      var ur, ui := o.add(x3i, x1r), o.sub(x3r, x1i);
      Eight(s0, t0, o.mul(w, o.sub(yr, yi)), o.mul(w, o.add(yr, yi)), o.sub(x2i, x0i), dr,
            o.mul(w, o.sub(ui, ur)), o.mul(w, o.add(ui, ur)))
    case Turn(w1r, w1i, w2r, w2i, w3r, w3i) =>
      Eight(s0, t0, Re(o, w1r, w1i, yr, yi), Im(o, w1r, w1i, yr, yi), Re(o, w2r, w2i, dr, di), Im(o, w2r, w2i, dr, di),
            Re(o, w3r, w3i, zr, zi), Im(o, w3r, w3i, zr, zi))
    case Back(w1r, w1i, w2r, w2i, w3r, w3i) =>
      Eight(s0, t0, Re(o, w1r, w1i, yr, yi), Im(o, w1r, w1i, yr, yi),
            o.sub(o.negMul(w2i, dr), o.mul(w2r, di)), o.add(o.negMul(w2i, di), o.mul(w2r, dr)),
            Re(o, w3r, w3i, zr, zi), Im(o, w3r, w3i, zr, zi))
  }

  function Read8<E>(s: seq<E>, l: nat, j: nat): Eight<E>
    requires j + 3 * l + 1 < |s|
  {
    Eight(s[j], s[j + 1], s[j + l], s[j + l + 1], s[j + 2 * l], s[j + 2 * l + 1], s[j + 3 * l], s[j + 3 * l + 1])
  }

  function Write8<E>(s: seq<E>, l: nat, j: nat, e: Eight<E>): (r: seq<E>)
    requires j + 3 * l + 1 < |s|
    ensures |r| == |s|
  {
    s[j := e.r0][j + 1 := e.i0][j + l := e.r1][j + l + 1 := e.i1]
     [j + 2 * l := e.r2][j + 2 * l + 1 := e.i2][j + 3 * l := e.r3][j + 3 * l + 1 := e.i3]
  }

  /** The butterfly at `j`, its inputs `l` apart. */
  function FlyAt<E>(o: Ops<E>, s: seq<E>, k: Kind<E>, l: nat, j: nat): (r: seq<E>)
    requires j + 3 * l + 1 < |s|
    ensures |r| == |s|
  {
    Write8(s, l, j, Fly(o, k, Read8(s, l, j)))
  }

  /** A run of butterflies of one kind. */
  function Run<E>(o: Ops<E>, s: seq<E>, k: Kind<E>, l: nat, j: nat, end: nat): (r: seq<E>)
    requires j <= end && Even(end - j) && end + 3 * l <= |s|
    ensures |r| == |s|
    decreases end - j
  {
    if j == end then s else Run(o, FlyAt(o, s, k, l, j), k, l, j + 2, end)
  }

  // ----- one stage -----

  /** A table entry; the routines never look beyond the table. */
  function Entry<E>(o: Ops<E>, w: seq<E>, i: nat): E { if i < |w| then w[i] else o.half }

  function Third<E>(o: Ops<E>, w1r: E, w1i: E, v: E): (E, E) {
    (o.sub(w1r, o.mul(o.mul(o.two, v), w1i)), o.sub(o.mul(o.mul(o.two, v), w1r), w1i))
  }

  /** The factors of the first and of the second half of a block. */
  function TurnAt<E>(o: Ops<E>, w: seq<E>, k1: nat): Kind<E> {
    var w1r, w1i, w2r, w2i := Entry(o, w, 2 * k1), Entry(o, w, 2 * k1 + 1), Entry(o, w, k1), Entry(o, w, k1 + 1);
    var w3 := Third(o, w1r, w1i, w2i);
    Turn(w1r, w1i, w2r, w2i, w3.0, w3.1)
  }

  function BackAt<E>(o: Ops<E>, w: seq<E>, k1: nat): Kind<E> {
    var w1r, w1i, w2r, w2i := Entry(o, w, 2 * k1 + 2), Entry(o, w, 2 * k1 + 3), Entry(o, w, k1), Entry(o, w, k1 + 1);
    var w3 := Third(o, w1r, w1i, w2r);
    Back(w1r, w1i, w2r, w2i, w3.0, w3.1)
  }

  function Block<E>(o: Ops<E>, s: seq<E>, w: seq<E>, l: nat, k: nat, k1: nat): (r: seq<E>)
    requires Even(l) && k + 8 * l <= |s|
    ensures |r| == |s|
  {
    EvenRange(l, k);
    EvenRange(l, k + 4 * l);
    Run(o, Run(o, s, TurnAt(o, w, k1), l, k, k + l), BackAt(o, w, k1), l, k + 4 * l, k + 5 * l)
  }

  lemma EvenRange(l: nat, k: nat)
    requires Even(l)
    ensures Even(k + l - k)
  {}

  /** The blocks from `k` on. */
  function Blocks<E>(o: Ops<E>, s: seq<E>, w: seq<E>, n: nat, l: nat, k: nat, k1: nat): (r: seq<E>)
    requires Even(l) && l > 0 && n <= |s|
    ensures |r| == |s|
    decreases n - k
  {
    if k + 8 * l > n then s else Blocks(o, Block(o, s, w, l, k, k1 + 2), w, n, l, k + 8 * l, k1 + 2)
  }

  function Opening<E>(o: Ops<E>, s: seq<E>, w: seq<E>, l: nat): (r: seq<E>)
    requires Even(l) && 8 * l <= |s|
    ensures |r| == |s|
  {
    EvenRange(l, 0);
    EvenRange(l, 4 * l);
    Run(o, Run(o, s, Plain, l, 0, l), Half(Entry(o, w, 2)), l, 4 * l, 5 * l)
  }

  function Stage<E>(o: Ops<E>, s: seq<E>, w: seq<E>, n: nat, l: nat): (r: seq<E>)
    requires Even(l) && l > 0 && 8 * l <= n <= |s|
    ensures |r| == |s|
  {
    Blocks(o, Opening(o, s, w, l), w, n, l, 8 * l, 0)
  }

  // ----- the whole transform -----

  function PairAt<E>(o: Ops<E>, s: seq<E>, l: nat, j: nat): (r: seq<E>)
    requires j + l + 1 < |s|
    ensures |r| == |s|
  {
    var xr, xi := o.sub(s[j], s[j + l]), o.sub(s[j + 1], s[j + l + 1]);
    s[j := o.add(s[j], s[j + l])][j + 1 := o.add(s[j + 1], s[j + l + 1])][j + l := xr][j + l + 1 := xi]
  }

  function Pairs<E>(o: Ops<E>, s: seq<E>, l: nat, j: nat): (r: seq<E>)
    requires j <= l && Even(l - j) && 2 * l <= |s|
    ensures |r| == |s|
    decreases l - j
  {
    if j == l then s else Pairs(o, PairAt(o, s, l, j), l, j + 2)
  }

  lemma Widths(i: nat, p: nat)
    requires 1 <= i < p
    ensures Even(Pow2(i)) && 2 * Pow2(i) <= Pow2(p) && (i + 1 == p ==> 2 * Pow2(i) == Pow2(p))
    ensures i + 2 <= p ==> 4 * Pow2(i) <= Pow2(p) && (i + 2 == p ==> 4 * Pow2(i) == Pow2(p))
    ensures i + 3 <= p ==> 8 * Pow2(i) <= Pow2(p)
  {
    hide *;
    PowNext(i - 1);
    BitReversal.TwiceEven(Pow2(i - 1));
    PowNext(i);
    PowNext(i + 1);
    PowNext(i + 2);
    Pow2Mono(i + 1, p);
    if i + 2 <= p { Pow2Mono(i + 2, p); }
    if i + 3 <= p { Pow2Mono(i + 3, p); }
  }

  /** Stages of four times the width each, and a last one of radix four or two; the width is `1 << i`. */
  function Levels<E>(o: Ops<E>, s: seq<E>, w: seq<E>, p: nat, i: nat): (r: seq<E>)
    requires 1 <= i < p && |s| == Pow2(p)
    ensures |r| == |s|
    decreases p - i
  {
    Widths(i, p);
    EvenRange(Pow2(i), 0);
    if i + 3 <= p then Levels(o, Stage(o, s, w, |s|, Pow2(i)), w, p, i + 2)
    else if i + 2 == p then Run(o, s, Plain, Pow2(i), 0, Pow2(i))
    else Pairs(o, s, Pow2(i), 0)
  }

  /** The conversion to the transform of real input, from both ends. */
  function MixAt<E>(o: Ops<E>, s: seq<E>, c: seq<E>, j: nat, k: nat, nc: nat, kk: nat): (r: seq<E>)
    requires j + 1 < |s| && k + 1 < |s|
    ensures |r| == |s|
  {
    var wkr, wki := o.sub(o.half, Entry(o, c, nc)), Entry(o, c, kk);
    var xr, xi := o.sub(s[j], s[k]), o.add(s[j + 1], s[k + 1]);
    var yr, yi := Re(o, wkr, wki, xr, xi), Im(o, wkr, wki, xr, xi);
    var t := s[j := o.sub(s[j], yr)];
    var u := t[j + 1 := o.sub(t[j + 1], yi)];
    var v := u[k := o.add(u[k], yr)];
    v[k + 1 := o.sub(v[k + 1], yi)]
  }

  function Mix<E>(o: Ops<E>, s: seq<E>, c: seq<E>, j: nat, nc: nat, kk: nat, ks: nat): (r: seq<E>)
    requires 2 * j <= |s| && 2 <= j && Even(j) && Even(|s| / 2) && Even(|s|)
    ensures |r| == |s|
    decreases |s| - j
  {
    if 2 * j == |s| || nc < ks then s
    else
      MixStep(|s|, j);
      Mix(o, MixAt(o, s, c, j, |s| - j, nc - ks, kk), c, j + 2, nc - ks, kk + ks, ks)
  }

  lemma MixStep(n: nat, j: nat)
    requires 2 * j < n && Even(j) && Even(n / 2) && Even(n)
    ensures 2 * (j + 2) <= n && Even(j + 2)
  {}

  /** The reordering, as a value. */
  function Reordered<E>(s: seq<E>, q: nat): (r: seq<E>)
    requires |s| == Pow2(q + 1)
    ensures |r| == |s|
  {
    seq(|s|, z requires 0 <= z < |s| => PowNext(q); BitRevBound(z / 2, q); s[2 * BitRev(z / 2, q) + z % 2])
  }

  lemma ReorderedIs<E>(s: seq<E>, t: seq<E>, q: nat)
    requires Permuted(t, s, q)
    ensures |s| == Pow2(q + 1) && t == Reordered(s, q)
  {
    hide BitRev;
    PowNext(q);
    var r := Reordered(s, q);
    forall z | 0 <= z < |s| ensures t[z] == r[z] {
      BitRevBound(z / 2, q);
      assert Cell(t, 2 * (z / 2)) == Cell(s, 2 * BitRev(z / 2, q));
      assert z == 2 * (z / 2) + z % 2;
    }
  }

  /** `rdft`, forward. */
  function Rdft<E>(o: Ops<E>, s: seq<E>, w: seq<E>, c: seq<E>, p: nat): (r: seq<E>)
    requires 1 <= p && |s| == Pow2(p)
    ensures |r| == |s|
  {
    PowNext(p - 1);
    Crossing(o, if p >= 3 then MixAll(o, Levels(o, Reordered(s, p - 1), w, p, 1), c, p)
                else if p == 2 then Levels(o, s, w, p, 1) else s)
  }

  function MixAll<E>(o: Ops<E>, s: seq<E>, c: seq<E>, p: nat): (r: seq<E>)
    requires 3 <= p && |s| == Pow2(p)
    ensures |r| == |s|
  {
    MixStart(p);
    var ks := 2 * |c| / (|s| / 2);
    Mix(o, s, c, 2, |c|, ks, ks)
  }

  lemma MixStart(p: nat)
    requires 3 <= p
    ensures 8 <= Pow2(p) && Even(Pow2(p) / 2) && Even(Pow2(p)) && Even(2)
  {
    hide *;
    PowNext(p - 1);
    PowNext(p - 2);
    PowNext(p - 3);
    BitReversal.TwiceEven(Pow2(p - 1));
    BitReversal.TwiceEven(Pow2(p - 2));
    BitReversal.TwiceEven(1);
    HalfOf(Pow2(p - 1));
    PowPositive(p - 3);
  }

  lemma HalfOf(x: nat)
    ensures 2 * x / 2 == x
  {}

  lemma PowPositive(n: nat)
    ensures Pow2(n) >= 1
  {}

  function Crossing<E>(o: Ops<E>, s: seq<E>): (r: seq<E>)
    requires |s| >= 2
    ensures |r| == |s|
  {
    var xi := o.sub(s[0], s[1]);
    s[0 := o.add(s[0], s[1])][1 := xi]
  }

  // ----- in place -----

  /** Eight values in their places and nothing else touched. */
  lemma Stored<E>(was: seq<E>, now: seq<E>, l: nat, j: nat, e: Eight<E>)
    requires l >= 2 && j + 3 * l + 1 < |was| == |now|
    requires now[j] == e.r0 && now[j + 1] == e.i0 && now[j + l] == e.r1 && now[j + l + 1] == e.i1
    requires now[j + 2 * l] == e.r2 && now[j + 2 * l + 1] == e.i2 && now[j + 3 * l] == e.r3 && now[j + 3 * l + 1] == e.i3
    requires forall z :: 0 <= z < |was| && Elsewhere(l, j, z) ==> now[z] == was[z]
    ensures now == Write8(was, l, j, e)
  {}

  predicate Elsewhere(l: nat, j: nat, z: nat) {
    && z != j && z != j + 1 && z != j + l && z != j + l + 1
    && z != j + 2 * l && z != j + 2 * l + 1 && z != j + 3 * l && z != j + 3 * l + 1
  }

  method Store8<E>(a: array<E>, l: nat, j: nat, e: Eight<E>)
    requires l >= 2 && j + 3 * l + 1 < a.Length
    modifies a
    ensures a[..] == Write8(old(a[..]), l, j, e)
  {
    hide Write8;
    ghost var was := a[..];
    a[j], a[j + 1] := e.r0, e.i0;
    a[j + 2 * l], a[j + 2 * l + 1] := e.r2, e.i2;
    a[j + l], a[j + l + 1] := e.r1, e.i1;
    a[j + 3 * l], a[j + 3 * l + 1] := e.r3, e.i3;
    Stored(was, a[..], l, j, e);
  }

  /** The sums and differences every butterfly starts from. */
  datatype Parts<E> = Parts(x0r: E, x0i: E, x1r: E, x1i: E, x2r: E, x2i: E, x3r: E, x3i: E)

  method Load8<E>(o: Ops<E>, a: array<E>, l: nat, j: nat) returns (x: Parts<E>)
    requires j + 3 * l + 1 < a.Length
    ensures x == PartsOf(o, Read8(a[..], l, j))
  {
    var j1 := j + l;
    var j2 := j1 + l;
    var j3 := j2 + l;
    x := Parts(o.add(a[j], a[j1]), o.add(a[j + 1], a[j1 + 1]), o.sub(a[j], a[j1]), o.sub(a[j + 1], a[j1 + 1]),
               o.add(a[j2], a[j3]), o.add(a[j2 + 1], a[j3 + 1]), o.sub(a[j2], a[j3]), o.sub(a[j2 + 1], a[j3 + 1]));
  }

  function PartsOf<E>(o: Ops<E>, e: Eight<E>): Parts<E> {
    Parts(o.add(e.r0, e.r1), o.add(e.i0, e.i1), o.sub(e.r0, e.r1), o.sub(e.i0, e.i1),
          o.add(e.r2, e.r3), o.add(e.i2, e.i3), o.sub(e.r2, e.r3), o.sub(e.i2, e.i3))
  }

  method PlainFly<E>(o: Ops<E>, a: array<E>, l: nat, j: nat)
    requires l >= 2 && j + 3 * l + 1 < a.Length
    modifies a
    ensures a[..] == FlyAt(o, old(a[..]), Plain, l, j)
  {
    hide Read8, Write8;
    var x := Load8(o, a, l, j);
    Store8(a, l, j, Eight(o.add(x.x0r, x.x2r), o.add(x.x0i, x.x2i), o.sub(x.x1r, x.x3i), o.add(x.x1i, x.x3r),
                          o.sub(x.x0r, x.x2r), o.sub(x.x0i, x.x2i), o.add(x.x1r, x.x3i), o.sub(x.x1i, x.x3r)));
  }

  method HalfFly<E>(o: Ops<E>, a: array<E>, wk1r: E, l: nat, j: nat)
    requires l >= 2 && j + 3 * l + 1 < a.Length
    modifies a
    ensures a[..] == FlyAt(o, old(a[..]), Half(wk1r), l, j)
  {
    hide Read8, Write8;
    var x := Load8(o, a, l, j);
    var yr, yi := o.sub(x.x1r, x.x3i), o.add(x.x1i, x.x3r);
    var zr, zi := o.add(x.x3i, x.x1r), o.sub(x.x3r, x.x1i);
    Store8(a, l, j, Eight(o.add(x.x0r, x.x2r), o.add(x.x0i, x.x2i), o.mul(wk1r, o.sub(yr, yi)), o.mul(wk1r, o.add(yr, yi)),
                          o.sub(x.x2i, x.x0i), o.sub(x.x0r, x.x2r), o.mul(wk1r, o.sub(zi, zr)), o.mul(wk1r, o.add(zi, zr))));
  }

  method TurnFly<E>(o: Ops<E>, a: array<E>, wk1r: E, wk1i: E, wk2r: E, wk2i: E, wk3r: E, wk3i: E, l: nat, j: nat)
    requires l >= 2 && j + 3 * l + 1 < a.Length
    modifies a
    ensures a[..] == FlyAt(o, old(a[..]), Turn(wk1r, wk1i, wk2r, wk2i, wk3r, wk3i), l, j)
  {
    hide Read8, Write8;
    var x := Load8(o, a, l, j);
    var dr, di := o.sub(x.x0r, x.x2r), o.sub(x.x0i, x.x2i);
    var yr, yi := o.sub(x.x1r, x.x3i), o.add(x.x1i, x.x3r);
    var zr, zi := o.add(x.x1r, x.x3i), o.sub(x.x1i, x.x3r);
    Store8(a, l, j, Eight(o.add(x.x0r, x.x2r), o.add(x.x0i, x.x2i),
                          o.sub(o.mul(wk1r, yr), o.mul(wk1i, yi)), o.add(o.mul(wk1r, yi), o.mul(wk1i, yr)),
                          o.sub(o.mul(wk2r, dr), o.mul(wk2i, di)), o.add(o.mul(wk2r, di), o.mul(wk2i, dr)),
                          o.sub(o.mul(wk3r, zr), o.mul(wk3i, zi)), o.add(o.mul(wk3r, zi), o.mul(wk3i, zr))));
  }

  method BackFly<E>(o: Ops<E>, a: array<E>, wk1r: E, wk1i: E, wk2r: E, wk2i: E, wk3r: E, wk3i: E, l: nat, j: nat)
    requires l >= 2 && j + 3 * l + 1 < a.Length
    modifies a
    ensures a[..] == FlyAt(o, old(a[..]), Back(wk1r, wk1i, wk2r, wk2i, wk3r, wk3i), l, j)
  {
    hide Read8, Write8;
    var x := Load8(o, a, l, j);
    var dr, di := o.sub(x.x0r, x.x2r), o.sub(x.x0i, x.x2i);
    var yr, yi := o.sub(x.x1r, x.x3i), o.add(x.x1i, x.x3r);
    var zr, zi := o.add(x.x1r, x.x3i), o.sub(x.x1i, x.x3r);
    Store8(a, l, j, Eight(o.add(x.x0r, x.x2r), o.add(x.x0i, x.x2i),
                          o.sub(o.mul(wk1r, yr), o.mul(wk1i, yi)), o.add(o.mul(wk1r, yi), o.mul(wk1i, yr)),
                          o.sub(o.negMul(wk2i, dr), o.mul(wk2r, di)), o.add(o.negMul(wk2i, di), o.mul(wk2r, dr)),
                          o.sub(o.mul(wk3r, zr), o.mul(wk3i, zi)), o.add(o.mul(wk3r, zi), o.mul(wk3i, zr))));
  }

  lemma RunNext<E>(o: Ops<E>, s: seq<E>, k: Kind<E>, l: nat, j: nat, end: nat)
    requires j <= end && Even(end - j) && end + 3 * l <= |s|
    ensures j == end ==> Run(o, s, k, l, j, end) == s
    ensures j < end ==> j + 2 <= end && Even(end - (j + 2))
                        && Run(o, s, k, l, j, end) == Run(o, FlyAt(o, s, k, l, j), k, l, j + 2, end)
  {
    hide FlyAt;
  }

  /** The two opening loops. */
  method Opens<E>(o: Ops<E>, a: array<E>, w: seq<E>, l: nat)
    requires Even(l) && l >= 2 && 8 * l <= a.Length && 2 < |w|
    modifies a
    ensures a[..] == Opening(o, old(a[..]), w, l)
  {
    hide Run, FlyAt, Even;
    ghost var was := a[..];
    EvenRange(l, 0);
    EvenRange(l, 4 * l);
    var j := 0;
    while j < l
      invariant 0 <= j <= l && Even(l - j)
      invariant Run(o, a[..], Plain, l, j, l) == Run(o, was, Plain, l, 0, l)
    {
      RunNext(o, a[..], Plain, l, j, l);
      PlainFly(o, a, l, j);
      j := j + 2;
    }
    RunNext(o, a[..], Plain, l, l, l);
    ghost var mid := a[..];
    var m := 4 * l;
    var wk1r := w[2];
    j := m;
    while j < l + m
      invariant m <= j <= 5 * l && Even(5 * l - j)
      invariant Run(o, a[..], Half(wk1r), l, j, 5 * l) == Run(o, mid, Half(wk1r), l, m, 5 * l)
    {
      RunNext(o, a[..], Half(wk1r), l, j, 5 * l);
      HalfFly(o, a, wk1r, l, j);
      j := j + 2;
    }
    RunNext(o, a[..], Half(wk1r), l, 5 * l, 5 * l);
  }

  /** The two loops of one block. */
  method BlockLoops<E>(o: Ops<E>, a: array<E>, w: seq<E>, l: nat, k: nat, k1: nat)
    requires Even(l) && l >= 2 && k + 8 * l <= a.Length && 2 * k1 + 3 < |w|
    modifies a
    ensures a[..] == Block(o, old(a[..]), w, l, k, k1)
  {
    hide Run, FlyAt, Even;
    ghost var was := a[..];
    EvenRange(l, k);
    EvenRange(l, k + 4 * l);
    var m := 4 * l;
    var wk2r, wk2i, wk1r, wk1i := w[k1], w[k1 + 1], w[2 * k1], w[2 * k1 + 1];
    var wk3r := o.sub(wk1r, o.mul(o.mul(o.two, wk2i), wk1i));
    var wk3i := o.sub(o.mul(o.mul(o.two, wk2i), wk1r), wk1i);
    ghost var turn := TurnAt(o, w, k1);
    assert turn == Turn(wk1r, wk1i, wk2r, wk2i, wk3r, wk3i);
    var j := k;
    while j < l + k
      invariant k <= j <= k + l && Even(k + l - j)
      invariant Run(o, a[..], turn, l, j, k + l) == Run(o, was, turn, l, k, k + l)
    {
      RunNext(o, a[..], turn, l, j, k + l);
      TurnFly(o, a, wk1r, wk1i, wk2r, wk2i, wk3r, wk3i, l, j);
      j := j + 2;
    }
    RunNext(o, a[..], turn, l, k + l, k + l);
    ghost var mid := a[..];
    wk1r, wk1i := w[2 * k1 + 2], w[2 * k1 + 3];
    wk3r := o.sub(wk1r, o.mul(o.mul(o.two, wk2r), wk1i));
    wk3i := o.sub(o.mul(o.mul(o.two, wk2r), wk1r), wk1i);
    ghost var back := BackAt(o, w, k1);
    assert back == Back(wk1r, wk1i, wk2r, wk2i, wk3r, wk3i);
    j := k + m;
    while j < l + k + m
      invariant k + m <= j <= k + 5 * l && Even(k + 5 * l - j)
      invariant Run(o, a[..], back, l, j, k + 5 * l) == Run(o, mid, back, l, k + 4 * l, k + 5 * l)
    {
      RunNext(o, a[..], back, l, j, k + 5 * l);
      BackFly(o, a, wk1r, wk1i, wk2r, wk2i, wk3r, wk3i, l, j);
      j := j + 2;
    }
    RunNext(o, a[..], back, l, k + 5 * l, k + 5 * l);
  }

  /** Block `q` of width `8 << i`: where it begins, that it fits, and how far into the table it reads. */
  lemma BlockPlace(q: nat, i: nat, e: nat)
    requires 1 <= i && i + 3 <= e
    ensures Shl(q, i + 3) + 8 * Pow2(i) == Shl(q + 1, i + 3) && Shl(1, i + 3) == 8 * Pow2(i)
    ensures Shl(q, i + 3) < Pow2(e) ==> Shl(q, i + 3) + 8 * Pow2(i) <= Pow2(e) && 4 * q + 3 < Pow2(e - 2)
  {
    hide *;
    Times8(i);
    ShlPow2(i + 3);
    ShlPlus(q, 1, i + 3);
    var count := Pow2(e - i - 3);
    ShlPow2(e - i - 3);
    ShlPow2(e);
    ShlShl(1, e - i - 3, i + 3);
    if q >= count { ShlMono(count, q, i + 3); }
    if q < count {
      ShlMono(q + 1, count, i + 3);
      PowNext(e - i - 3);
      PowNext(e - i - 2);
      Pow2Mono(e - i - 1, e - 2);
    }
  }

  lemma BlocksNext<E>(o: Ops<E>, s: seq<E>, w: seq<E>, n: nat, l: nat, k: nat, k1: nat)
    requires Even(l) && l > 0 && n <= |s|
    ensures k >= n ==> Blocks(o, s, w, n, l, k, k1) == s
    ensures k + 8 * l <= n ==> Blocks(o, s, w, n, l, k, k1) == Blocks(o, Block(o, s, w, l, k, k1 + 2), w, n, l, k + 8 * l, k1 + 2)
  {
    hide Block;
  }

  lemma StageIs<E>(o: Ops<E>, s: seq<E>, w: seq<E>, n: nat, l: nat)
    requires Even(l) && l > 0 && 8 * l <= n <= |s|
    ensures Stage(o, s, w, n, l) == Blocks(o, Opening(o, s, w, l), w, n, l, 8 * l, 0)
  {}

  lemma TwoIs()
    ensures Pow2(1) == 2 && Even(2)
  {
    PowNext(0);
    PowOne();
  }

  lemma OneFly<E>(o: Ops<E>, s: seq<E>, k: Kind<E>, j: nat)
    requires j + 8 <= |s|
    ensures Even(j + 2 - j) && Run(o, s, k, 2, j, j + 2) == FlyAt(o, s, k, 2, j)
  {
    hide FlyAt;
    RunNext(o, s, k, 2, j, j + 2);
    RunNext(o, FlyAt(o, s, k, 2, j), k, 2, j + 2, j + 2);
  }

  /** The values the first stage touches: all, but never fewer than two blocks of 16. */
  function Reach(e: nat): nat { if e < 5 then 32 else Pow2(e) }

  /** The first stage, its loops of one round each unrolled. Its block loop tests at the end, so that a transform of
      16 values is treated as one of 32. */
  method Cft1st<E>(o: Ops<E>, a: array<E>, w: seq<E>, n: nat, ghost e: nat)
    requires 4 <= e && n == Pow2(e) && a.Length >= Reach(e) && |w| >= Reach(e) / 4
    modifies a
    ensures Even(2) && 16 <= Reach(e) <= a.Length && a[..] == Stage(o, old(a[..]), w, Reach(e), 2)
  {
    hide *;
    ghost var m := Reach(e);
    ghost var f := if e < 5 then 5 else e;
    ReachIs(e);
    TwoIs();
    BlockPlace(1, 1, f);
    ghost var was := a[..];
    OneFly(o, was, Plain, 0);
    PlainFly(o, a, 2, 0);
    OneFly(o, a[..], Half(w[2]), 8);
    HalfFly(o, a, w[2], 2, 8);
    OpeningTwo(o, was, w);
    StageIs(o, was, w, m, 2);
    ghost var start := a[..];
    var k1, j, more := 0, 16, true;
    ghost var q: nat := 1;
    while more
      invariant Even(2) && 1 <= q && j == Shl(q, 4) && k1 == 2 * (q - 1) && more == (j < m)
      invariant Blocks(o, a[..], w, m, 2, j, k1) == Blocks(o, start, w, m, 2, 16, 0)
      decreases m - j
    {
      BlockPlace(q, 1, f);
      BlocksNext(o, a[..], w, m, 2, j, k1);
      k1 := k1 + 2;
      FirstBlock(o, a, w, j, k1);
      j := j + 16;
      q := q + 1;
      more := j < n;
    }
    BlocksNext(o, a[..], w, m, 2, j, k1);
  }

  lemma ReachIs(e: nat)
    requires 4 <= e
    ensures Pow2(e) >= 16 && Reach(e) >= 32 && (e == 4 ==> Pow2(e) == 16 && Reach(e) == Pow2(5) == 32 && Pow2(3) == 8 == Reach(e) / 4)
    ensures e >= 5 ==> Reach(e) == Pow2(e) && Reach(e) / 4 == Pow2(e - 2)
  {
    hide Pow2;
    Powers();
    PowNext(3);
    Pow2Mono(4, e);
    if e >= 5 {
      Pow2Mono(5, e);
      PowNext(e - 1);
      PowNext(e - 2);
    }
  }

  lemma Powers()
    ensures Pow2(5) == 32 && Pow2(3) == 8
  {
    TwoIs();
    PowNext(1);
    PowNext(2);
    PowNext(3);
    PowNext(4);
  }

  lemma OpeningTwo<E>(o: Ops<E>, s: seq<E>, w: seq<E>)
    requires 16 <= |s| && 2 < |w|
    ensures Even(2) && Opening(o, s, w, 2) == FlyAt(o, FlyAt(o, s, Plain, 2, 0), Half(w[2]), 2, 8)
  {
    hide FlyAt, Run;
    OneFly(o, s, Plain, 0);
    OneFly(o, FlyAt(o, s, Plain, 2, 0), Half(w[2]), 8);
  }

  method FirstBlock<E>(o: Ops<E>, a: array<E>, w: seq<E>, j: nat, k1: nat)
    requires j + 16 <= a.Length && 2 * k1 + 3 < |w|
    modifies a
    ensures Even(2) && a[..] == Block(o, old(a[..]), w, 2, j, k1)
  {
    hide FlyAt, Run;
    ghost var was := a[..];
    var wk2r, wk2i, wk1r, wk1i := w[k1], w[k1 + 1], w[2 * k1], w[2 * k1 + 1];
    var wk3r := o.sub(wk1r, o.mul(o.mul(o.two, wk2i), wk1i));
    var wk3i := o.sub(o.mul(o.mul(o.two, wk2i), wk1r), wk1i);
    OneFly(o, a[..], TurnAt(o, w, k1), j);
    TurnFly(o, a, wk1r, wk1i, wk2r, wk2i, wk3r, wk3i, 2, j);
    wk1r, wk1i := w[2 * k1 + 2], w[2 * k1 + 3];
    wk3r := o.sub(wk1r, o.mul(o.mul(o.two, wk2r), wk1i));
    wk3i := o.sub(o.mul(o.mul(o.two, wk2r), wk1r), wk1i);
    OneFly(o, a[..], BackAt(o, w, k1), j + 8);
    BackFly(o, a, wk1r, wk1i, wk2r, wk2i, wk3r, wk3i, 2, j + 8);
  }

  /** The stages in between. */
  method CftMdl<E>(o: Ops<E>, a: array<E>, w: seq<E>, l: nat, ghost i: nat, ghost e: nat)
    requires 1 <= i && i + 3 <= e && l == Pow2(i) && a.Length == Pow2(e) && |w| >= Pow2(e - 2)
    modifies a
    ensures Even(l) && l > 0 && 8 * l <= a.Length && a[..] == Stage(o, old(a[..]), w, a.Length, l)
  {
    hide *;
    Widths(i, e);
    PowPositive(i);
    BlockPlace(1, i, e);
    BlockPlace(0, i, e);
    WidthTwo(i);
    Pow2Mono(2, e - 2);
    FourIs();
    var n := a.Length;
    ghost var was := a[..];
    StageIs(o, was, w, n, l);
    Opens(o, a, w, l);
    ghost var start := a[..];
    var m2 := 8 * l;
    var k1, k := 0, m2;
    ghost var q: nat := 1;
    while k < n
      invariant 1 <= q && k == Shl(q, i + 3) && k1 == 2 * (q - 1)
      invariant Blocks(o, a[..], w, n, l, k, k1) == Blocks(o, start, w, n, l, m2, 0)
      decreases n - k
    {
      BlockPlace(q, i, e);
      BlocksNext(o, a[..], w, n, l, k, k1);
      k1 := k1 + 2;
      BlockLoops(o, a, w, l, k, k1);
      k := k + m2;
      q := q + 1;
    }
    BlocksNext(o, a[..], w, n, l, k, k1);
  }

  lemma WidthTwo(i: nat)
    requires 1 <= i
    ensures Pow2(i) >= 2
  {
    hide *;
    Pow2Mono(1, i);
    TwoIs();
  }

  lemma FourIs()
    ensures Pow2(2) == 4
  {
    TwoIs();
    PowNext(1);
  }

  lemma LevelsNext<E>(o: Ops<E>, s: seq<E>, w: seq<E>, e: nat, i: nat)
    requires 1 <= i < e && |s| == Pow2(e)
    ensures Even(Pow2(i)) && Pow2(i) > 0
    ensures i + 3 <= e ==> 8 * Pow2(i) <= |s| && Levels(o, s, w, e, i) == Levels(o, Stage(o, s, w, |s|, Pow2(i)), w, e, i + 2)
    ensures i + 2 == e ==> 4 * Pow2(i) == |s| && Even(Pow2(i) - 0) && Levels(o, s, w, e, i) == Run(o, s, Plain, Pow2(i), 0, Pow2(i))
    ensures i + 1 == e ==> 2 * Pow2(i) == |s| && Even(Pow2(i) - 0) && Levels(o, s, w, e, i) == Pairs(o, s, Pow2(i), 0)
  {
    hide Stage, Run, Pairs, Even, Pow2;
    Widths(i, e);
    PowPositive(i);
    EvenRange(Pow2(i), 0);
  }

  lemma LevelGuard(i: nat, e: nat)
    requires 1 <= i < e
    ensures (4 * Pow2(i) < Pow2(e) <==> i + 3 <= e) && (4 * Pow2(i) == Pow2(e) <==> i + 2 == e)
  {
    hide *;
    PowNext(i);
    PowNext(i + 1);
    Pow2Less(i + 2, e);
    Pow2Less(e, i + 2);
  }

  method LastFour<E>(o: Ops<E>, a: array<E>, l: nat)
    requires Even(l) && l >= 2 && 4 * l == a.Length
    modifies a
    ensures Even(l - 0) && a[..] == Run(o, old(a[..]), Plain, l, 0, l)
  {
    hide Run, FlyAt, Even;
    ghost var was := a[..];
    EvenRange(l, 0);
    var j := 0;
    while j < l
      invariant 0 <= j <= l && Even(l - j)
      invariant Run(o, a[..], Plain, l, j, l) == Run(o, was, Plain, l, 0, l)
    {
      RunNext(o, a[..], Plain, l, j, l);
      PlainFly(o, a, l, j);
      j := j + 2;
    }
    RunNext(o, a[..], Plain, l, l, l);
  }

  lemma PairsNext<E>(o: Ops<E>, s: seq<E>, l: nat, j: nat)
    requires j <= l && Even(l - j) && 2 * l <= |s|
    ensures j == l ==> Pairs(o, s, l, j) == s
    ensures j < l ==> j + 2 <= l && Even(l - (j + 2)) && Pairs(o, s, l, j) == Pairs(o, PairAt(o, s, l, j), l, j + 2)
  {
    hide PairAt;
  }

  method LastTwo<E>(o: Ops<E>, a: array<E>, l: nat)
    requires Even(l) && l >= 2 && 2 * l == a.Length
    modifies a
    ensures Even(l - 0) && a[..] == Pairs(o, old(a[..]), l, 0)
  {
    hide Pairs, Even;
    ghost var was := a[..];
    EvenRange(l, 0);
    var j := 0;
    while j < l
      invariant 0 <= j <= l && Even(l - j)
      invariant Pairs(o, a[..], l, j) == Pairs(o, was, l, 0)
    {
      PairsNext(o, a[..], l, j);
      Pair(o, a, l, j);
      j := j + 2;
    }
    PairsNext(o, a[..], l, l);
  }

  method Pair<E>(o: Ops<E>, a: array<E>, l: nat, j: nat)
    requires l >= 2 && j + l + 1 < a.Length
    modifies a
    ensures a[..] == PairAt(o, old(a[..]), l, j)
  {
    var j1 := j + l;
    var x0r, x0i := o.sub(a[j], a[j1]), o.sub(a[j + 1], a[j1 + 1]);
    a[j] := o.add(a[j], a[j1]);
    a[j + 1] := o.add(a[j + 1], a[j1 + 1]);
    a[j1] := x0r;
    a[j1 + 1] := x0i;
  }

  /** All stages. For a length of 16 the first one would run beyond the end. */
  method CftfSub<E>(o: Ops<E>, a: array<E>, w: seq<E>, ghost e: nat)
    requires 2 <= e && e != 4 && a.Length == Pow2(e) && (e >= 4 ==> |w| >= Pow2(e - 2))
    modifies a
    ensures a[..] == Levels(o, old(a[..]), w, e, 1)
  {
    hide *;
    ghost var was := a[..];
    var n := a.Length;
    var l := 2;
    ghost var i: nat := 1;
    TwoIs();
    Powers();
    LevelGuard(1, e);
    if n > 8 {
      ReachIs(e);
      Cft1st(o, a, w, n, e);
      LevelsNext(o, was, w, e, 1);
      l := 8;
      i := 3;
      LevelGuard(3, e);
      while l * 4 < n
        invariant 3 <= i < e && l == Pow2(i) && (l * 4 < n <==> i + 3 <= e) && (l * 4 == n <==> i + 2 == e)
        invariant Levels(o, a[..], w, e, i) == Levels(o, was, w, e, 1)
        decreases e - i
      {
        LevelsNext(o, a[..], w, e, i);
        CftMdl(o, a, w, l, i, e);
        FourTimes(i);
        l := l * 4;
        i := i + 2;
        LevelGuard(i, e);
      }
    }
    LevelsNext(o, a[..], w, e, i);
    WidthTwo(i);
    if l * 4 == n {
      LastFour(o, a, l);
    } else {
      LastTwo(o, a, l);
    }
  }

  lemma FourTimes(i: nat)
    ensures Pow2(i + 2) == 4 * Pow2(i)
  {
    PowNext(i);
    PowNext(i + 1);
  }

  function Prod(t: nat, ks: nat): nat { t * ks }

  lemma ProdNext(t: nat, ks: nat)
    ensures Prod(t + 1, ks) == Prod(t, ks) + ks && Prod(1, ks) == ks && Prod(0, ks) == 0
  {}

  lemma ProdMono(t: nat, u: nat, ks: nat)
    requires t <= u
    ensures Prod(t, ks) <= Prod(u, ks)
  {}

  /** The stride through the table fits its length, and is not zero if the table is long enough. */
  lemma Stride(nc: nat, m: nat)
    requires m >= 2 && Even(m) && nc >= m / 2
    ensures 2 * nc / m >= 1 && Prod(m / 2, 2 * nc / m) <= nc
  {
    var h := m / 2;
    assert m == 2 * h;
    StrideHalf(nc, h);
  }

  lemma StrideHalf(nc: nat, h: nat)
    requires h >= 1 && nc >= h
    ensures 2 * nc / (2 * h) >= 1 && Prod(h, 2 * nc / (2 * h)) <= nc
  {
    var q := 2 * nc / (2 * h);
    assert 2 * nc == (2 * h) * q + 2 * nc % (2 * h);
    assert (2 * h) * q == 2 * (h * q);
  }

  lemma MixNext<E>(o: Ops<E>, s: seq<E>, c: seq<E>, j: nat, nc: nat, kk: nat, ks: nat)
    requires 2 * j <= |s| && 2 <= j && Even(j) && Even(|s| / 2) && Even(|s|)
    ensures 2 * j == |s| ==> Mix(o, s, c, j, nc, kk, ks) == s
    ensures 2 * j < |s| && nc >= ks ==>
              2 * (j + 2) <= |s| && Even(j + 2)
              && Mix(o, s, c, j, nc, kk, ks) == Mix(o, MixAt(o, s, c, j, |s| - j, nc - ks, kk), c, j + 2, nc - ks, kk + ks, ks)
  {
    hide MixAt, Even;
    if 2 * j < |s| { MixStep(|s|, j); }
  }

  method MixPair<E>(o: Ops<E>, a: array<E>, c: seq<E>, j: nat, k: nat, nc: nat, kk: nat)
    requires j + 1 < k && k + 1 < a.Length && nc < |c| && kk < |c|
    modifies a
    ensures a[..] == MixAt(o, old(a[..]), c, j, k, nc, kk)
  {
    var wkr, wki := o.sub(o.half, c[nc]), c[kk];
    var xr, xi := o.sub(a[j], a[k]), o.add(a[j + 1], a[k + 1]);
    var yr := o.sub(o.mul(wkr, xr), o.mul(wki, xi));
    var yi := o.add(o.mul(wkr, xi), o.mul(wki, xr));
    a[j] := o.sub(a[j], yr);
    a[j + 1] := o.sub(a[j + 1], yi);
    a[k] := o.add(a[k], yr);
    a[k + 1] := o.sub(a[k + 1], yi);
  }

  method RftfSub<E>(o: Ops<E>, a: array<E>, c: seq<E>, ghost e: nat)
    requires 3 <= e && a.Length == Pow2(e) && |c| >= Pow2(e - 2)
    modifies a
    ensures a[..] == MixAll(o, old(a[..]), c, e)
  {
    hide *;
    MixStart(e);
    Quarter(e);
    var n := a.Length;
    ghost var was := a[..];
    var m := n / 2;
    Stride(|c|, m);
    var nc, ks := |c|, 2 * |c| / m;
    var kk, j, k := ks, 2, n;
    ghost var t: nat := 0;
    ProdNext(0, ks);
    EvenLess(m);
    MixAllIs(o, was, c, e);
    while j < m
      invariant 0 <= nc && j == 2 * (t + 1) && 2 * j <= n && Even(j) && k == n - 2 * t && nc == |c| - Prod(t, ks) && kk == Prod(t + 1, ks)
      invariant Mix(o, a[..], c, j, nc, kk, ks) == Mix(o, was, c, 2, |c|, ks, ks)
      decreases m - j
    {
      ProdNext(t, ks);
      ProdNext(t + 1, ks);
      HalfLess(t, m);
      ProdMono(t + 2, m / 2, ks);
      ProdMono(1, t + 1, ks);
      MixNext(o, a[..], c, j, nc, kk, ks);
      k := k - 2;
      nc := nc - ks;
      MixPair(o, a, c, j, k, nc, kk);
      kk := kk + ks;
      j := j + 2;
      t := t + 1;
    }
    MixNext(o, a[..], c, j, nc, kk, ks);
  }

  lemma MixAllIs<E>(o: Ops<E>, s: seq<E>, c: seq<E>, e: nat)
    requires 3 <= e && |s| == Pow2(e)
    ensures 8 <= |s| && Even(|s| / 2) && Even(|s|) && Even(2)
    ensures var ks := 2 * |c| / (|s| / 2); MixAll(o, s, c, e) == Mix(o, s, c, 2, |c|, ks, ks)
  {
    hide Mix, Pow2, Even;
    MixStart(e);
  }

  lemma Quarter(e: nat)
    requires 3 <= e
    ensures Pow2(e) / 2 / 2 == Pow2(e - 2) && Pow2(e) == 2 * (Pow2(e) / 2) && Pow2(e) / 2 == 2 * Pow2(e - 2)
  {
    PowNext(e - 1);
    PowNext(e - 2);
  }

  lemma EvenLess(m: nat)
    requires Even(m) && m >= 3
    ensures m >= 4
  {}

  lemma HalfLess(t: nat, m: nat)
    requires Even(m) && 2 * (t + 1) < m
    ensures t + 2 <= m / 2
  {}

  lemma RdftIs<E>(o: Ops<E>, s: seq<E>, w: seq<E>, c: seq<E>, e: nat)
    requires 1 <= e && |s| == Pow2(e)
    ensures |s| >= 2
    ensures e >= 3 ==> Rdft(o, s, w, c, e) == Crossing(o, MixAll(o, Levels(o, Reordered(s, e - 1), w, e, 1), c, e))
    ensures e == 2 ==> Rdft(o, s, w, c, e) == Crossing(o, Levels(o, s, w, e, 1))
    ensures e == 1 ==> Rdft(o, s, w, c, e) == Crossing(o, s)
  {
    hide Crossing, MixAll, Levels, Reordered, Pow2;
    PowNext(e - 1);
    PowPositive(e - 1);
  }

  lemma SizeGuard(e: nat)
    requires 1 <= e
    ensures (Pow2(e) > 4 <==> e >= 3) && (Pow2(e) == 4 <==> e == 2) && Pow2(e) >= 2
  {
    hide *;
    FourIs();
    Pow2Less(2, e);
    Pow2Less(e, 2);
    WidthTwo(e);
  }

  /** `rdft`, for any arithmetic: reordering, stages, conversion, and the crossing of the first two values. */
  method RdftInPlace<E>(o: Ops<E>, ghost e: nat, a: array<E>, ip: array<nat>, w: seq<E>, c: seq<E>)
    requires 1 <= e && e != 4 && a.Length == Pow2(e) && (ip as object) != (a as object)
    requires e >= 3 ==> ip.Length >= Pow2((e - 2) / 2) && |w| >= Pow2(e - 2) && |c| >= Pow2(e - 2)
    modifies a, ip
    ensures a[..] == Rdft(o, old(a[..]), w, c, e)
  {
    hide *;
    ghost var was := a[..];
    var n := a.Length;
    SizeGuard(e);
    RdftIs(o, was, w, c, e);
    if n > 4 {
      Bitrv2(n, e, ip, a);
      ReorderedIs(was, a[..], e - 1);
      CftfSub(o, a, w, e);
      RftfSub(o, a, c, e);
    } else if n == 4 {
      CftfSub(o, a, w, e);
    }
    Cross(o, a);
  }

  method Cross<E>(o: Ops<E>, a: array<E>)
    requires a.Length >= 2
    modifies a
    ensures a[..] == Crossing(o, old(a[..]))
  {
    var xi := o.sub(a[0], a[1]);
    a[0] := o.add(a[0], a[1]);
    a[1] := xi;
  }
}
