/** What the transform computes: the discrete Fourier sums of its input. */
module Fourier {
  import opened BitStrings
  import opened BitReversal
  import opened Fft
  import opened FftLanes
  import opened Dft

  // ----- a stage, value by value -----

  lemma FlyPlaces<E>(o: Ops<E>, s: seq<E>, k: Kind<E>, l: nat, j: nat, z: nat)
    requires l >= 2 && j + 3 * l + 1 < |s| && z < |s|
    ensures Read8(FlyAt(o, s, k, l, j), l, j) == Fly(o, k, Read8(s, l, j))
    ensures Elsewhere(l, j, z) ==> FlyAt(o, s, k, l, j)[z] == s[z]
  {
    hide Fly;
  }

  /** None of the butterflies from `j` up to `end` touches `z`. */
  predicate Clear(l: nat, j: nat, end: nat, z: nat)
  {
    && !(j <= z < end) && !(j + l <= z < end + l) && !(j + 2 * l <= z < end + 2 * l) && !(j + 3 * l <= z < end + 3 * l)
  }

  lemma {:induction false} RunClear<E>(o: Ops<E>, s: seq<E>, k: Kind<E>, l: nat, j: nat, end: nat, z: nat)
    requires l >= 2 && j <= end && Even(end - j) && end + 3 * l <= |s| && z < |s| && Clear(l, j, end, z)
    ensures Run(o, s, k, l, j, end)[z] == s[z]
    decreases end - j
  {
    hide FlyAt;
    if j < end {
      FlyPlaces(o, s, k, l, j, z);
      RunClear(o, FlyAt(o, s, k, l, j), k, l, j + 2, end, z);
    }
  }

  /** Eight values that a run has not reached, or has passed. */
  lemma ClearEight<E>(s: seq<E>, t: seq<E>, l: nat, x: nat)
    requires |s| == |t| && x + 3 * l + 1 < |s|
    requires t[x] == s[x] && t[x + 1] == s[x + 1] && t[x + l] == s[x + l] && t[x + l + 1] == s[x + l + 1]
    requires t[x + 2 * l] == s[x + 2 * l] && t[x + 2 * l + 1] == s[x + 2 * l + 1]
    requires t[x + 3 * l] == s[x + 3 * l] && t[x + 3 * l + 1] == s[x + 3 * l + 1]
    ensures Read8(t, l, x) == Read8(s, l, x)
  {}

  lemma RunClearEight<E>(o: Ops<E>, s: seq<E>, k: Kind<E>, l: nat, j: nat, end: nat, x: nat)
    requires l >= 2 && j <= end <= x + l && x + 2 <= j && Even(end - j) && end + 3 * l <= |s|
    ensures Read8(Run(o, s, k, l, j, end), l, x) == Read8(s, l, x)
  {
    hide Run, Read8;
    var t := Run(o, s, k, l, j, end);
    RunClear(o, s, k, l, j, end, x);
    RunClear(o, s, k, l, j, end, x + 1);
    RunClear(o, s, k, l, j, end, x + l);
    RunClear(o, s, k, l, j, end, x + l + 1);
    RunClear(o, s, k, l, j, end, x + 2 * l);
    RunClear(o, s, k, l, j, end, x + 2 * l + 1);
    RunClear(o, s, k, l, j, end, x + 3 * l);
    RunClear(o, s, k, l, j, end, x + 3 * l + 1);
    ClearEight(s, t, l, x);
  }

  lemma FlyClearEight<E>(o: Ops<E>, s: seq<E>, k: Kind<E>, l: nat, j: nat, x: nat)
    requires l >= 2 && j + 2 <= x && x + 2 <= j + l && x + 3 * l + 1 < |s|
    ensures Read8(FlyAt(o, s, k, l, j), l, x) == Read8(s, l, x)
  {
    hide FlyAt, Read8;
    FlyPlaces(o, s, k, l, j, x);
    FlyPlaces(o, s, k, l, j, x + 1);
    FlyPlaces(o, s, k, l, j, x + l);
    FlyPlaces(o, s, k, l, j, x + l + 1);
    FlyPlaces(o, s, k, l, j, x + 2 * l);
    FlyPlaces(o, s, k, l, j, x + 2 * l + 1);
    FlyPlaces(o, s, k, l, j, x + 3 * l);
    FlyPlaces(o, s, k, l, j, x + 3 * l + 1);
    ClearEight(s, FlyAt(o, s, k, l, j), l, x);
  }

  /** Every group of eight values in a run goes through its butterfly. */
  lemma {:induction false} RunPlaces<E>(o: Ops<E>, s: seq<E>, k: Kind<E>, l: nat, j: nat, end: nat, x: nat)
    requires l >= 2 && j <= x < end <= j + l && Even(end - j) && Even(end - x) && end + 3 * l <= |s|
    ensures Read8(Run(o, s, k, l, j, end), l, x) == Fly(o, k, Read8(s, l, x))
    decreases end - j
  {
    hide FlyAt, Read8, Fly;
    var t := FlyAt(o, s, k, l, j);
    if x == j {
      FlyPlaces(o, s, k, l, j, j);
      RunClearEight(o, t, k, l, j + 2, end, j);
    } else {
      FlyClearEight(o, s, k, l, j, x);
      RunPlaces(o, t, k, l, j + 2, end, x);
    }
  }

  /** Eight values in a stretch that stays as it is. */
  lemma SameEight<E>(s: seq<E>, t: seq<E>, l: nat, x: nat, lo: nat, hi: nat)
    requires |s| == |t| && lo <= x && x + 3 * l + 1 < hi <= |s| && forall z :: lo <= z < hi ==> t[z] == s[z]
    ensures Read8(t, l, x) == Read8(s, l, x)
  {}

  lemma BlockFirst<E>(o: Ops<E>, s: seq<E>, w: seq<E>, l: nat, k: nat, k1: nat, x: nat)
    requires l >= 2 && Even(l) && Even(k) && Even(x) && k + 8 * l <= |s| && k <= x && x + 2 <= k + l
    ensures Read8(Block(o, s, w, l, k, k1), l, x) == Fly(o, TurnAt(o, w, k1), Read8(s, l, x))
  {
    hide Run, Read8, Fly, TurnAt, BackAt;
    EvenRange(l, k);
    EvenRange(l, k + 4 * l);
    var turn, back := TurnAt(o, w, k1), BackAt(o, w, k1);
    var t := Run(o, s, turn, l, k, k + l);
    var r := Run(o, t, back, l, k + 4 * l, k + 5 * l);
    RunPlaces(o, s, turn, l, k, k + l, x);
    forall y | k <= y < k + 4 * l ensures r[y] == t[y] { RunClear(o, t, back, l, k + 4 * l, k + 5 * l, y); }
    SameEight(t, r, l, x, k, k + 4 * l);
  }

  lemma BlockSecond<E>(o: Ops<E>, s: seq<E>, w: seq<E>, l: nat, k: nat, k1: nat, x: nat)
    requires l >= 2 && Even(l) && Even(k) && Even(x) && k + 8 * l <= |s| && k + 4 * l <= x && x + 2 <= k + 5 * l
    ensures Read8(Block(o, s, w, l, k, k1), l, x) == Fly(o, BackAt(o, w, k1), Read8(s, l, x))
  {
    hide Run, Read8, Fly, TurnAt, BackAt;
    EvenRange(l, k);
    EvenRange(l, k + 4 * l);
    var turn, back := TurnAt(o, w, k1), BackAt(o, w, k1);
    var t := Run(o, s, turn, l, k, k + l);
    RunPlaces(o, t, back, l, k + 4 * l, k + 5 * l, x);
    forall y | k + 4 * l <= y < k + 8 * l ensures t[y] == s[y] { RunClear(o, s, turn, l, k, k + l, y); }
    SameEight(s, t, l, x, k + 4 * l, k + 8 * l);
  }

  lemma BlockClear<E>(o: Ops<E>, s: seq<E>, w: seq<E>, l: nat, k: nat, k1: nat, z: nat)
    requires l >= 2 && Even(l) && k + 8 * l <= |s| && z < |s| && !(k <= z < k + 8 * l)
    ensures Block(o, s, w, l, k, k1)[z] == s[z]
  {
    hide Run, TurnAt, BackAt;
    EvenRange(l, k);
    EvenRange(l, k + 4 * l);
    RunClear(o, s, TurnAt(o, w, k1), l, k, k + l, z);
    RunClear(o, Run(o, s, TurnAt(o, w, k1), l, k, k + l), BackAt(o, w, k1), l, k + 4 * l, k + 5 * l, z);
  }

  /** What the butterflies of half block `b` are turned by. */
  function KindOf<E>(o: Ops<E>, w: seq<E>, b: nat): Kind<E>
  {
    if b == 0 then Plain else if b == 1 then Half(Entry(o, w, 2))
    else if b % 2 == 0 then TurnAt(o, w, b) else BackAt(o, w, b - 1)
  }

  lemma {:induction false} BlocksClear<E>(o: Ops<E>, s: seq<E>, w: seq<E>, n: nat, l: nat, k: nat, k1: nat, z: nat)
    requires Even(l) && l >= 2 && n <= |s| && z < k && z < |s|
    ensures Blocks(o, s, w, n, l, k, k1)[z] == s[z]
    decreases n - k
  {
    hide Block;
    if k + 8 * l <= n {
      BlockClear(o, s, w, l, k, k1 + 2, z);
      BlocksClear(o, Block(o, s, w, l, k, k1 + 2), w, n, l, k + 8 * l, k1 + 2, z);
    }
  }

  lemma {:induction false} BlocksPlaces<E>(o: Ops<E>, s: seq<E>, w: seq<E>, e: nat, i: nat, q: nat, b: nat, x: nat)
    requires 1 <= i && i + 3 <= e && |s| == Pow2(e) && 1 <= q <= b / 2 && Even(x)
    requires Shl(b, i + 2) <= x < Shl(b, i + 2) + Pow2(i) && Shl(b, i + 2) + 4 * Pow2(i) <= |s|
    ensures Even(Pow2(i)) && Pow2(i) >= 2 && x + 3 * Pow2(i) + 1 < |s|
    ensures Read8(Blocks(o, s, w, |s|, Pow2(i), Shl(q, i + 3), 2 * (q - 1)), Pow2(i), x) == Fly(o, KindOf(o, w, b), Read8(s, Pow2(i), x))
    decreases b / 2 - q
  {
    hide *;
    var l, k := Pow2(i), Shl(q, i + 3);
    Widths(i, e);
    WidthTwo(i);
    PlaceOf(q, b, i);
    BaseEven(b, i);
    EvenBelow(x, Shl(b, i + 2) + l);
    BlockPlace(q, i, e);
    BlocksNext(o, s, w, |s|, l, k, 2 * (q - 1));
    var t := Block(o, s, w, l, k, 2 * q);
    KindIs(o, w, b, q);
    if b / 2 == q {
      if b == 2 * q {
        BlockFirst(o, s, w, l, k, 2 * q, x);
      } else {
        BlockSecond(o, s, w, l, k, 2 * q, x);
      }
      forall z | k <= z < k + 8 * l ensures Blocks(o, t, w, |s|, l, k + 8 * l, 2 * q)[z] == t[z] {
        BlocksClear(o, t, w, |s|, l, k + 8 * l, 2 * q, z);
      }
      SameEight(t, Blocks(o, t, w, |s|, l, k + 8 * l, 2 * q), l, x, k, k + 8 * l);
    } else {
      forall z | k + 8 * l <= z < |s| ensures t[z] == s[z] {
        BlockClear(o, s, w, l, k, 2 * q, z);
      }
      SameEight(s, t, l, x, k + 8 * l, |s|);
      BlocksPlaces(o, t, w, e, i, q + 1, b, x);
    }
  }

  /** Where half block `b` lies in, or behind, block `q`. */
  lemma PlaceOf(q: nat, b: nat, i: nat)
    requires q <= b / 2
    ensures Shl(q, i + 3) == Shl(2 * q, i + 2) && Even(Shl(q, i + 3)) && Even(Shl(q + 1, i + 3)) && Shl(q, i + 3) + 8 * Pow2(i) == Shl(q + 1, i + 3)
    ensures b == 2 * q ==> Shl(b, i + 2) == Shl(q, i + 3)
    ensures b == 2 * q + 1 ==> Shl(b, i + 2) == Shl(q, i + 3) + 4 * Pow2(i)
    ensures b / 2 > q ==> Shl(b, i + 2) >= Shl(q, i + 3) + 8 * Pow2(i)
  {
    hide *;
    ShlShl(q, 1, i + 2);
    ShlTwice(q);
    ShlPlus(2 * q, 1, i + 2);
    ShlPow2(i + 2);
    PowNext(i);
    PowNext(i + 1);
    PowNext(i + 2);
    ShlPlus(q, 1, i + 3);
    ShlPow2(i + 3);
    ShlShl(q + 1, 1, i + 2);
    ShlTwice(q + 1);
    ShlEven(q, i + 2);
    ShlEven(q + 1, i + 2);
    if b / 2 > q { ShlMono(2 * (q + 1), b, i + 2); }
  }

  lemma ShlEven(q: nat, n: nat)
    ensures Even(Shl(q, n + 1))
  {}

  lemma EvenBelow(x: nat, y: nat)
    requires Even(x) && Even(y) && x < y
    ensures x + 2 <= y
  {}

  lemma BaseEven(b: nat, i: nat)
    requires 1 <= i
    ensures Even(Shl(b, i + 2) + Pow2(i))
  {
    PowNext(i - 1);
  }

  lemma KindIs<E>(o: Ops<E>, w: seq<E>, b: nat, q: nat)
    requires 1 <= q
    ensures b == 2 * q ==> KindOf(o, w, b) == TurnAt(o, w, 2 * q)
    ensures b == 2 * q + 1 ==> KindOf(o, w, b) == BackAt(o, w, 2 * q)
  {}

  lemma OpeningPlaces<E>(o: Ops<E>, s: seq<E>, w: seq<E>, l: nat, x: nat)
    requires l >= 2 && Even(l) && Even(x) && 8 * l <= |s|
    ensures x + 2 <= l ==> Read8(Opening(o, s, w, l), l, x) == Fly(o, KindOf(o, w, 0), Read8(s, l, x))
    ensures 4 * l <= x && x + 2 <= 5 * l ==> Read8(Opening(o, s, w, l), l, x) == Fly(o, KindOf(o, w, 1), Read8(s, l, x))
  {
    hide Run, Read8, Fly, Entry;
    EvenRange(l, 0);
    EvenRange(l, 4 * l);
    var half := KindOf(o, w, 1);
    var t := Run(o, s, Plain, l, 0, l);
    var r := Run(o, t, half, l, 4 * l, 5 * l);
    if x + 2 <= l {
      RunPlaces(o, s, Plain, l, 0, l, x);
      forall y | 0 <= y < 4 * l ensures r[y] == t[y] { RunClear(o, t, half, l, 4 * l, 5 * l, y); }
      SameEight(t, r, l, x, 0, 4 * l);
    } else if 4 * l <= x && x + 2 <= 5 * l {
      RunPlaces(o, t, half, l, 4 * l, 5 * l, x);
      forall y | 4 * l <= y < 8 * l ensures t[y] == s[y] { RunClear(o, s, Plain, l, 0, l, y); }
      SameEight(s, t, l, x, 4 * l, 8 * l);
    }
  }

  lemma OpeningClear<E>(o: Ops<E>, s: seq<E>, w: seq<E>, l: nat, z: nat)
    requires l >= 2 && Even(l) && 8 * l <= z < |s|
    ensures Opening(o, s, w, l)[z] == s[z]
  {
    hide Run, Entry;
    EvenRange(l, 0);
    EvenRange(l, 4 * l);
    RunClear(o, s, Plain, l, 0, l, z);
    RunClear(o, Run(o, s, Plain, l, 0, l), Half(Entry(o, w, 2)), l, 4 * l, 5 * l, z);
  }

  /** A stage of width `1 << i`: every group of eight values goes through the butterfly of its half block. */
  lemma StagePlaces<E>(o: Ops<E>, s: seq<E>, w: seq<E>, e: nat, i: nat, b: nat, x: nat)
    requires 1 <= i && i + 3 <= e && |s| == Pow2(e) && Even(x)
    requires Shl(b, i + 2) <= x < Shl(b, i + 2) + Pow2(i) && Shl(b, i + 2) + 4 * Pow2(i) <= |s|
    ensures Even(Pow2(i)) && Pow2(i) >= 2 && 8 * Pow2(i) <= |s| && x + 3 * Pow2(i) + 1 < |s|
    ensures Read8(Stage(o, s, w, |s|, Pow2(i)), Pow2(i), x) == Fly(o, KindOf(o, w, b), Read8(s, Pow2(i), x))
  {
    hide *;
    var l := Pow2(i);
    Widths(i, e);
    WidthTwo(i);
    BaseEven(b, i);
    EvenBelow(x, Shl(b, i + 2) + l);
    StageIs(o, s, w, |s|, l);
    PlaceOf(0, b, i);
    BlockPlace(1, i, e);
    BlockPlace(0, i, e);
    ShlNone(i + 3);
    var t := Opening(o, s, w, l);
    if b < 2 {
      OpeningPlaces(o, s, w, l, x);
      forall z | 0 <= z < 8 * l ensures Blocks(o, t, w, |s|, l, 8 * l, 0)[z] == t[z] {
        BlocksClear(o, t, w, |s|, l, 8 * l, 0, z);
      }
      SameEight(t, Blocks(o, t, w, |s|, l, 8 * l, 0), l, x, 0, 8 * l);
    } else {
      forall z | 8 * l <= z < |s| ensures t[z] == s[z] { OpeningClear(o, s, w, l, z); }
      SameEight(s, t, l, x, 8 * l, |s|);
      BlocksPlaces(o, t, w, e, i, 1, b, x);
    }
  }

  // ----- a butterfly, as complex arithmetic -----

  function At(e: Eight<real>, u: nat): Cx
  {
    if u == 0 then Cx(e.r0, e.i0) else if u == 1 then Cx(e.r1, e.i1) else if u == 2 then Cx(e.r2, e.i2) else Cx(e.r3, e.i3)
  }

  /** The transform of the four values, whose second and third have changed places. */
  function Fours(e: Eight<real>, t: nat): Cx { Four(t, At(e, 0), At(e, 2), At(e, 1), At(e, 3)) }

  lemma FoursAre(e: Eight<real>)
    ensures Fours(e, 0) == Cx(e.r0 + e.r1 + e.r2 + e.r3, e.i0 + e.i1 + e.i2 + e.i3)
    ensures Fours(e, 1) == Cx(e.r0 - e.r1 - (e.i2 - e.i3), e.i0 - e.i1 + (e.r2 - e.r3))
    ensures Fours(e, 2) == Cx(e.r0 + e.r1 - (e.r2 + e.r3), e.i0 + e.i1 - (e.i2 + e.i3))
    ensures Fours(e, 3) == Cx(e.r0 - e.r1 + (e.i2 - e.i3), e.i0 - e.i1 - (e.r2 - e.r3))
  {
    hide Mul;
    MulUnit(Sub(At(e, 2), At(e, 3)));
  }

  /** A kind of butterfly turns its four results by 1, `c`, `c` squared and `c` cubed. */
  ghost predicate TurnsBy(k: Kind<real>, c: Cx)
  {
    match k
    case Plain => c == One
    case Half(h) => c == Cx(h, h) && Mul(c, c) == I
    case Turn(a, b, p, q, x, y) => c == Cx(a, b) && Mul(c, c) == Cx(p, q) && Mul(c, Mul(c, c)) == Cx(x, y)
    case Back(a, b, p, q, x, y) => c == Cx(a, b) && Mul(c, c) == Cx(-q, p) && Mul(c, Mul(c, c)) == Cx(x, y)
  }

  lemma PowSmall(c: Cx)
    ensures Pow(c, 0) == One && Pow(c, 1) == c && Pow(c, 2) == Mul(c, c) && Pow(c, 3) == Mul(c, Mul(c, c))
  {
    hide Mul;
    PowFirst(c);
  }

  lemma FlyPlain(e: Eight<real>, t: nat)
    requires t < 4
    ensures At(Fly(RealOps(), Plain, e), t) == Mul(Pow(One, t), Fours(e, t))
  {
    hide Mul, Pow, Fours, Times;
    FoursAre(e);
    PowUnit(t);
    MulUnit(Fours(e, t));
  }

  lemma TimesIs(a: real, b: real)
    ensures Times(a, b) == a * b
  {}

  lemma CxMul(a: real, b: real, x: real, y: real)
    ensures Mul(Cx(a, b), Cx(x, y)) == Cx(Times(a, x) - Times(b, y), Times(a, y) + Times(b, x))
    ensures Times(-a, x) == -Times(a, x) && Times(-b, y) == -Times(b, y)
    ensures Times(-b, x) == -Times(b, x) && Times(a, -x) == -Times(a, x)
  {}

  lemma FlyTurn(e: Eight<real>, a: real, b: real, p: real, q: real, x: real, y: real)
    ensures var f := Fly(RealOps(), Turn(a, b, p, q, x, y), e);
            && At(f, 0) == Fours(e, 0) && At(f, 1) == Mul(Cx(a, b), Fours(e, 1))
            && At(f, 2) == Mul(Cx(p, q), Fours(e, 2)) && At(f, 3) == Mul(Cx(x, y), Fours(e, 3))
  {
    hide Mul, Fours, Times;
    FoursAre(e);
    CxMul(a, b, Fours(e, 1).re, Fours(e, 1).im);
    CxMul(p, q, Fours(e, 2).re, Fours(e, 2).im);
    CxMul(x, y, Fours(e, 3).re, Fours(e, 3).im);
  }

  lemma FlyBack(e: Eight<real>, a: real, b: real, p: real, q: real, x: real, y: real)
    ensures var f := Fly(RealOps(), Back(a, b, p, q, x, y), e);
            && At(f, 0) == Fours(e, 0) && At(f, 1) == Mul(Cx(a, b), Fours(e, 1))
            && At(f, 2) == Mul(Cx(-q, p), Fours(e, 2)) && At(f, 3) == Mul(Cx(x, y), Fours(e, 3))
  {
    hide Mul, Fours, Times;
    FoursAre(e);
    CxMul(a, b, Fours(e, 1).re, Fours(e, 1).im);
    CxMul(-q, p, Fours(e, 2).re, Fours(e, 2).im);
    CxMul(x, y, Fours(e, 3).re, Fours(e, 3).im);
  }

  lemma FlyHalf(e: Eight<real>, h: real)
    requires Mul(Cx(h, h), Cx(h, h)) == I
    ensures var f := Fly(RealOps(), Half(h), e); var c := Cx(h, h);
            && At(f, 0) == Fours(e, 0) && At(f, 1) == Mul(c, Fours(e, 1))
            && At(f, 2) == Mul(I, Fours(e, 2)) && At(f, 3) == Mul(Mul(c, I), Fours(e, 3))
  {
    hide Mul, Fours, Times;
    FoursAre(e);
    var y, z := Fours(e, 1), Fours(e, 3);
    HalfTimes(h, y.re, y.im);
    HalfTimes(h, -z.im, z.re);
    MulUnit(Fours(e, 2));
    MulUnit(z);
    MulAssoc(Cx(h, h), I, z);
  }

  lemma HalfTimes(h: real, x: real, y: real)
    ensures Mul(Cx(h, h), Cx(x, y)) == Cx(Times(h, x - y), Times(h, x + y))
  {}

  /** Whatever the kind, the results are turned by the powers of its factor. */
  lemma FlyMeans(k: Kind<real>, c: Cx, e: Eight<real>, t: nat)
    requires t < 4 && TurnsBy(k, c)
    ensures At(Fly(RealOps(), k, e), t) == Mul(Pow(c, t), Fours(e, t))
  {
    hide Mul, Pow, Fours, Fly, At;
    PowSmall(c);
    MulUnit(Fours(e, 0));
    match k
    case Plain => FlyPlain(e, t);
    case Half(h) => FlyHalf(e, h);
    case Turn(a, b, p, q, x, y) => FlyTurn(e, a, b, p, q, x, y);
    case Back(a, b, p, q, x, y) => FlyBack(e, a, b, p, q, x, y);
  }

  // ----- the table -----

  /** The complex value at index `x`. */
  function Cval(s: seq<real>, x: nat): Cx { if 2 * x + 1 < |s| then Cx(s[2 * x], s[2 * x + 1]) else Zero }

  predicate OnCircle(u: Cx) { u.re * u.re + u.im * u.im == 1.0 }

  /** The table of a root: its powers in bit-reversed order. */
  ghost predicate Table(w: seq<real>, root: Cx, m: nat)
  {
    && |w| >= 2 * Pow2(m) && OnCircle(root) && Pow(root, Pow2(m)) == I
    && forall b :: 0 <= b < Pow2(m) ==> Cval(w, b) == Pow(root, BitRev(b, m))
  }

  lemma {:induction false} PowCircle(u: Cx, n: nat)
    requires OnCircle(u)
    ensures OnCircle(Pow(u, n))
  {
    hide Mul, OnCircle;
    if n == 0 {
      CircleOne();
    } else {
      PowCircle(u, n - 1);
      MulCircle(u, Pow(u, n - 1));
    }
  }

  lemma CircleOne()
    ensures OnCircle(One)
  {}

  lemma MulCircle(a: Cx, b: Cx)
    requires OnCircle(a) && OnCircle(b)
    ensures OnCircle(Mul(a, b))
  {
    var x, y := a.re * b.re - a.im * b.im, a.re * b.im + a.im * b.re;
    assert x * x + y * y == (a.re * a.re + a.im * a.im) * (b.re * b.re + b.im * b.im);
  }

  /** The low bit of an index becomes the high one. */
  lemma BitRevLow(x: nat, y: nat, n: nat)
    requires y < 2
    ensures BitRev(2 * x + y, n + 1) == BitRev(x, n) + (if y == 1 then Pow2(n) else 0)
  {
    hide *;
    EncNext(x, y, n);
    var a := Enc(x, n);
    ReverseConcat(a, [y == 1]);
    ReverseOne(y == 1);
    BitRevVal(x, n);
    BitRevVal(2 * x + y, n + 1);
    ConsIs(y == 1, Reverse(a));
    LeadingVal([y == 1] + Reverse(a));
  }

  lemma EncNext(x: nat, y: nat, n: nat)
    requires y < 2
    ensures Enc(2 * x + y, n + 1) == Enc(x, n) + [y == 1]
  {
    assert (2 * x + y) / 2 == x;
  }

  lemma BitRevVal(x: nat, n: nat)
    ensures BitRev(x, n) == Val(Reverse(Enc(x, n))) && |Reverse(Enc(x, n))| == n
  {
    hide Reverse, Enc, Val;
  }

  lemma ConsIs(b: bool, s: Bits)
    ensures |[b] + s| == |s| + 1 && ([b] + s)[0] == b && ([b] + s)[1..] == s
  {}

  /** The table gives each index a square root of what it gives half of it, or of that times the imaginary unit. */
  lemma Roots(root: Cx, m: nat, b: nat)
    requires m >= 1 && b < Pow2(m) && Pow(root, Pow2(m)) == I
    ensures b / 2 < Pow2(m)
    ensures var c, d := Pow(root, BitRev(b, m)), Pow(root, BitRev(b / 2, m));
            Mul(c, c) == if b % 2 == 0 then d else Mul(I, d)
  {
    hide Mul, Pow, BitRev;
    PowNext(m - 1);
    var q := b / 2;
    BitRevLow(q, b % 2, m - 1);
    BitRevHalf(q, m - 1);
    PowTwice(root, BitRev(b, m));
    if b % 2 == 1 { PowAdd(root, Pow2(m), BitRev(q, m)); }
  }

  lemma RootOfI(c: Cx)
    requires Mul(c, c) == I
    ensures c.re == c.im
  {
    assert c.re * c.re == c.im * c.im && c.re * c.im == 0.5;
    assert (c.re - c.im) * (c.re + c.im) == 0.0;
  }

  lemma Cubed(c: Cx, v: real)
    requires OnCircle(c) && v == Mul(c, c).im
    ensures Third(RealOps(), c.re, c.im, v) == (Mul(c, Mul(c, c)).re, Mul(c, Mul(c, c)).im)
  {
    ThirdIs(c.re, c.im, v);
    CubedIs(c.re, c.im, v);
  }

  lemma ThirdIs(a: real, b: real, v: real)
    ensures Third(RealOps(), a, b, v) == (a - Times(Times(2.0, v), b), Times(Times(2.0, v), a) - b)
  {
    hide Times;
  }

  lemma CubedIs(a: real, b: real, v: real)
    requires a * a + b * b == 1.0 && v == a * b + b * a
    ensures var c := Cx(a, b); Mul(c, Mul(c, c)) == Cx(a - Times(Times(2.0, v), b), Times(Times(2.0, v), a) - b)
  {
    var p := a * a - b * b;
    assert p == 1.0 - 2.0 * (b * b) == 2.0 * (a * a) - 1.0;
    assert a * p - b * v == a - 2.0 * v * b;
    assert a * v + b * p == 2.0 * v * a - b;
  }

  lemma TableAt(w: seq<real>, root: Cx, m: nat, b: nat)
    requires Table(w, root, m) && b < Pow2(m)
    ensures 2 * b + 1 < |w| && Cx(Entry(RealOps(), w, 2 * b), Entry(RealOps(), w, 2 * b + 1)) == Pow(root, BitRev(b, m))
    ensures OnCircle(root) && Pow(root, Pow2(m)) == I
  {
    hide Pow, BitRev;
    assert Cval(w, b) == Pow(root, BitRev(b, m));
  }

  lemma TurnTurns(w: seq<real>, root: Cx, m: nat, q: nat)
    requires Table(w, root, m) && m >= 1 && 2 * q < Pow2(m)
    ensures TurnsBy(TurnAt(RealOps(), w, 2 * q), Pow(root, BitRev(2 * q, m)))
  {
    hide Table, Mul, Pow, BitRev, Entry, Third, OnCircle, Pow2;
    var c := Pow(root, BitRev(2 * q, m));
    TableAt(w, root, m, q);
    TableAt(w, root, m, 2 * q);
    Roots(root, m, 2 * q);
    PowCircle(root, BitRev(2 * q, m));
    Cubed(c, Mul(c, c).im);
  }

  lemma BackTurns(w: seq<real>, root: Cx, m: nat, q: nat)
    requires Table(w, root, m) && m >= 1 && 2 * q + 1 < Pow2(m)
    ensures TurnsBy(BackAt(RealOps(), w, 2 * q), Pow(root, BitRev(2 * q + 1, m)))
  {
    hide Table, Mul, Pow, BitRev, Entry, Third, OnCircle, Pow2;
    var c := Pow(root, BitRev(2 * q + 1, m));
    TableAt(w, root, m, q);
    TableAt(w, root, m, 2 * q + 1);
    Roots(root, m, 2 * q + 1);
    MulUnit(Pow(root, BitRev(q, m)));
    PowCircle(root, BitRev(2 * q + 1, m));
    Cubed(c, Mul(c, c).im);
  }

  /** With the table of a root, half block `b` is turned by the powers of its entry. */
  lemma KindTurns(w: seq<real>, root: Cx, m: nat, b: nat)
    requires Table(w, root, m) && b < Pow2(m)
    ensures TurnsBy(KindOf(RealOps(), w, b), Pow(root, BitRev(b, m)))
  {
    hide Table, Mul, Pow, BitRev, Entry, TurnAt, BackAt;
    if b >= 1 { PowZero(m); }
    if b == 0 {
      BitRevNone(m);
      PowFirst(root);
    } else if b == 1 {
      TableAt(w, root, m, 1);
      Roots(root, m, 1);
      BitRevNone(m);
      PowFirst(root);
      MulUnit(I);
      RootOfI(Pow(root, BitRev(1, m)));
    } else if b % 2 == 0 {
      TurnTurns(w, root, m, b / 2);
    } else {
      BackTurns(w, root, m, b / 2);
    }
  }

  lemma PowZero(m: nat)
    ensures m == 0 ==> Pow2(m) == 1
  {}

  lemma {:induction false} BitRevNone(n: nat)
    ensures BitRev(0, n) == 0
  {
    hide BitRev, Pow2;
    if n == 0 {
      BitRevBound(0, 0);
      assert Pow2(0) == 1 by { PowZero(0); }
    } else {
      BitRevNone(n - 1);
      BitRevLow(0, 0, n - 1);
    }
  }

  /** The same table serves the shorter transforms. */
  lemma {:induction false} BitRevLonger(b: nat, m: nat, d: nat)
    requires b < Pow2(m)
    ensures BitRev(b, m + d) == Shl(BitRev(b, m), d)
    decreases d
  {
    hide BitRev, Pow2;
    if d > 0 {
      BitRevLonger(b, m, d - 1);
      Pow2Mono(m, m + d - 1);
      BitRevHalf(b, m + d - 1);
    }
  }

  lemma TableShorter(w: seq<real>, root: Cx, m: nat, d: nat)
    requires Table(w, root, m + d)
    ensures Table(w, Pow(root, Pow2(d)), m)
  {
    hide Mul, Pow, BitRev, Cval, Pow2, Shl;
    Pow2Mono(m, m + d);
    var r := Pow(root, Pow2(d));
    PowCircle(root, Pow2(d));
    PowShl(root, Pow2(m), d);
    ShlPow2(m);
    ShlPow2(m + d);
    ShlShl(1, m, d);
    forall b | 0 <= b < Pow2(m) ensures Cval(w, b) == Pow(r, BitRev(b, m)) {
      BitRevLonger(b, m, d);
      PowShl(root, BitRev(b, m), d);
      assert Cval(w, b) == Pow(root, BitRev(b, m + d));
    }
  }

  // ----- from stage to stage -----

  /** The values `1 << d` apart from `c` on, in their natural order. */
  ghost function Nat(z: seq<real>, n: nat, d: nat, c: nat): (y: seq<Cx>)
    ensures |y| == Pow2(n)
  {
    seq(Pow2(n), j requires 0 <= j < Pow2(n) => Cval(z, Shl(BitRev(j, n), d) + c))
  }

  function Item(x: seq<Cx>, i: nat): Cx { if i < |x| then x[i] else Zero }

  /** So far the transform has been taken apart into `1 << d` transforms of `1 << n` values each: together they have the
      results `x`. */
  ghost predicate Stands(z: seq<real>, n: nat, d: nat, x: seq<Cx>, v: Cx)
  {
    forall k, c :: 0 <= k < Pow2(n) && 0 <= c < Pow2(d) ==> Item(x, Shl(k, d) + c) == Eval(Nat(z, n, d, c), Pow(v, k))
  }

  /** What a stage leaves in place of value `t` of group `r` in half block `b`. */
  ghost function Flown(z: seq<real>, m: nat, d: nat, v: Cx, b: nat, t: nat, r: nat): Cx
  {
    var p := Shl(b, d + 2) + r;
    Mul(Pow(Pow(v, BitRev(b, m)), t), Four(t, Cval(z, p), Cval(z, Shl(2, d) + p), Cval(z, Shl(1, d) + p), Cval(z, Shl(3, d) + p)))
  }

  ghost predicate AllFlown(z: seq<real>, y: seq<real>, m: nat, d: nat, v: Cx)
  {
    forall b, t, r :: 0 <= b < Pow2(m) && 0 <= t < 4 && 0 <= r < Pow2(d) ==>
      Cval(y, Shl(b, d + 2) + Shl(t, d) + r) == Flown(z, m, d, v, b, t, r)
  }

  /** The four values that are combined lie a quarter of the length apart in the natural order. */
  lemma BitRevFour(j: nat, m: nat)
    requires j < Pow2(m)
    ensures Pow2(m + 2) == 4 * Pow2(m)
    ensures BitRev(j, m + 2) == 4 * BitRev(j, m) && BitRev(Pow2(m) + j, m + 2) == 4 * BitRev(j, m) + 2
    ensures BitRev(2 * Pow2(m) + j, m + 2) == 4 * BitRev(j, m) + 1 && BitRev(3 * Pow2(m) + j, m + 2) == 4 * BitRev(j, m) + 3
  {
    hide BitRev, Pow2;
    PowNext(m);
    PowNext(m + 1);
    BitRevHalf(j, m);
    BitRevHalf(j, m + 1);
    BitRevHalf(Pow2(m) + j, m + 1);
  }

  lemma ShlFour(a: nat, u: nat, d: nat)
    ensures Shl(4 * a + u, d) == Shl(a, d + 2) + Shl(u, d) && (u == 0 ==> Shl(u, d) == 0)
  {
    hide *;
    ShlPlus(4 * a, u, d);
    ShlShl(a, 2, d);
    FourShl(a);
    ShlNone(d);
  }

  lemma NatAt(z: seq<real>, n: nat, d: nat, c: nat, j: nat)
    requires j < Pow2(n)
    ensures Nat(z, n, d, c)[j] == Cval(z, Shl(BitRev(j, n), d) + c)
  {
    hide Cval, Shl, BitRev;
  }

  /** The coefficients of the shorter transforms are those of the longer one, folded and turned. */
  lemma NatTurned(z: seq<real>, y: seq<real>, m: nat, d: nat, v: Cx, t: nat, c: nat)
    requires AllFlown(z, y, m, d, v) && t < 4 && c < Pow2(d)
    ensures Pow2(m + 2) == 4 * Pow2(m) && Turned(Nat(y, m, d + 2, Shl(t, d) + c), Nat(z, m + 2, d, c), v, t, Pow2(m))
  {
    hide *;
    QuarterOf(m);
    var f, g := Nat(y, m, d + 2, Shl(t, d) + c), Nat(z, m + 2, d, c);
    forall j | 0 <= j < Pow2(m) ensures f[j] == Mul(Pow(Pow(v, j), t), FourAt(g, t, Pow2(m), j)) {
      NatTurnedAt(z, y, m, d, v, t, c, j);
    }
    TurnedIs(f, g, v, t, Pow2(m));
  }

  lemma QuarterOf(m: nat)
    ensures Pow2(m + 2) == 4 * Pow2(m)
  {
    PowNext(m);
    PowNext(m + 1);
  }

  lemma TurnedIs(f: seq<Cx>, g: seq<Cx>, w: Cx, t: nat, m: nat)
    requires |g| == 4 * m && |f| == m && forall j :: 0 <= j < m ==> f[j] == Mul(Pow(Pow(w, j), t), FourAt(g, t, m, j))
    ensures Turned(f, g, w, t, m)
  {
    hide Mul, Pow, FourAt;
  }

  lemma FlownAt(z: seq<real>, y: seq<real>, m: nat, d: nat, v: Cx, b: nat, t: nat, r: nat)
    requires AllFlown(z, y, m, d, v) && b < Pow2(m) && t < 4 && r < Pow2(d)
    ensures Cval(y, Shl(b, d + 2) + Shl(t, d) + r) == Flown(z, m, d, v, b, t, r)
  {
    hide Flown, Cval, Shl;
  }

  lemma NatQuarter(z: seq<real>, m: nat, d: nat, c: nat, i: nat, b: nat, u: nat)
    requires i < Pow2(m + 2) && BitRev(i, m + 2) == 4 * b + u
    ensures Nat(z, m + 2, d, c)[i] == Cval(z, Shl(u, d) + (Shl(b, d + 2) + c))
  {
    hide *;
    NatAt(z, m + 2, d, c, i);
    ShlFour(b, u, d);
  }

  lemma NatTurnedAt(z: seq<real>, y: seq<real>, m: nat, d: nat, v: Cx, t: nat, c: nat, j: nat)
    requires AllFlown(z, y, m, d, v) && t < 4 && c < Pow2(d) && j < Pow2(m)
    ensures Pow2(m + 2) == 4 * Pow2(m)
    ensures Nat(y, m, d + 2, Shl(t, d) + c)[j] == Mul(Pow(Pow(v, j), t), FourAt(Nat(z, m + 2, d, c), t, Pow2(m), j))
  {
    hide *;
    var b := BitRev(j, m);
    BitRevBound(j, m);
    BitRevTwice(j, m);
    BitRevFour(j, m);
    FlownAt(z, y, m, d, v, b, t, c);
    NatAt(y, m, d + 2, Shl(t, d) + c, j);
    NatQuarter(z, m, d, c, j, b, 0);
    NatQuarter(z, m, d, c, Pow2(m) + j, b, 2);
    NatQuarter(z, m, d, c, 2 * Pow2(m) + j, b, 1);
    NatQuarter(z, m, d, c, 3 * Pow2(m) + j, b, 3);
    ShlFour(b, 0, d);
    ShlFour(b, t, d);
    FlownIs(z, m, d, v, b, t, c);
    FourAtIs(Nat(z, m + 2, d, c), t, Pow2(m), j);
  }

  lemma FlownIs(z: seq<real>, m: nat, d: nat, v: Cx, b: nat, t: nat, r: nat)
    ensures var p := Shl(b, d + 2) + r;
            Flown(z, m, d, v, b, t, r) == Mul(Pow(Pow(v, BitRev(b, m)), t),
              Four(t, Cval(z, p), Cval(z, Shl(2, d) + p), Cval(z, Shl(1, d) + p), Cval(z, Shl(3, d) + p)))
  {
    hide Mul, Pow, BitRev, Four, Cval, Shl;
  }

  lemma FourAtIs(y: seq<Cx>, t: nat, m: nat, j: nat)
    requires |y| == 4 * m && j < m
    ensures FourAt(y, t, m, j) == Four(t, y[j], y[m + j], y[2 * m + j], y[3 * m + j])
  {
    hide Four;
  }

  lemma StandsAt(z: seq<real>, n: nat, d: nat, x: seq<Cx>, v: Cx, k: nat, c: nat)
    requires Stands(z, n, d, x, v) && k < Pow2(n) && c < Pow2(d)
    ensures Item(x, Shl(k, d) + c) == Eval(Nat(z, n, d, c), Pow(v, k))
  {
    hide Item, Shl, Eval, Nat, Pow;
  }

  /** A stage leaves transforms of a quarter of the length, with the same results. */
  lemma StandsNext(z: seq<real>, y: seq<real>, m: nat, d: nat, x: seq<Cx>, v: Cx)
    requires Stands(z, m + 2, d, x, v) && AllFlown(z, y, m, d, v) && Pow(v, Pow2(m)) == I
    ensures Stands(y, m, d + 2, x, Pow(v, 4))
  {
    hide *;
    var e, u := d + 2, Pow(v, 4);
    forall k, c | 0 <= k < Pow2(m) && 0 <= c < Pow2(e) ensures Item(x, Shl(k, e) + c) == Eval(Nat(y, m, e, c), Pow(u, k)) {
      var t, r := Split(c, d);
      QuarterOf(m);
      NatTurned(z, y, m, d, v, t, r);
      ShlFour(k, t, d);
      StandsAt(z, m + 2, d, x, v, 4 * k + t, r);
      FourTimesLong(Nat(z, m + 2, d, r), Nat(y, m, d + 2, c), v, Pow2(m), k, t);
    }
    StandsIs(y, m, d + 2, x, Pow(v, 4));
  }

  lemma StandsIs(z: seq<real>, n: nat, d: nat, x: seq<Cx>, v: Cx)
    requires forall k, c :: 0 <= k < Pow2(n) && 0 <= c < Pow2(d) ==> Item(x, Shl(k, d) + c) == Eval(Nat(z, n, d, c), Pow(v, k))
    ensures Stands(z, n, d, x, v)
  {
    hide Item, Shl, Eval, Nat, Pow;
  }

  /** A place among four runs of `1 << d`. */
  lemma Split(c: nat, d: nat) returns (t: nat, r: nat)
    requires c < Pow2(d + 2)
    ensures t < 4 && r < Pow2(d) && c == Shl(t, d) + r
  {
    hide *;
    t, r := Shr(c, d), Low(c, d);
    Recompose(c, d);
    if t >= 4 {
      ShlMono(4, t, d);
      ShlFour(1, 0, d);
      ShlPow2(d + 2);
      assert false;
    }
  }

  // ----- the stages of the transform -----

  /** The four complex values of a butterfly, by their index. */
  lemma CellsAt(z: seq<real>, d: nat, p: nat)
    requires 2 * p + 3 * (2 * Pow2(d)) + 1 < |z|
    ensures var e := Read8(z, 2 * Pow2(d), 2 * p);
            && At(e, 0) == Cval(z, p) && At(e, 1) == Cval(z, Shl(1, d) + p)
            && At(e, 2) == Cval(z, Shl(2, d) + p) && At(e, 3) == Cval(z, Shl(3, d) + p)
  {
    hide Pow2, Shl;
    ShlPow2(d);
    ShlPlus(1, 1, d);
    ShlPlus(2, 1, d);
  }

  /** Group `r` of half block `b`, as an address. */
  lemma GroupAt(b: nat, m: nat, d: nat, r: nat)
    requires b < Pow2(m) && r < Pow2(d)
    ensures 2 * (Shl(b, d + 2) + r) == Shl(b, d + 3) + 2 * r < Shl(b, d + 3) + Pow2(d + 1)
    ensures Shl(b, d + 3) + 4 * Pow2(d + 1) <= Pow2(m + d + 3) && Pow2(d + 1) == 2 * Pow2(d)
    ensures Even(2 * (Shl(b, d + 2) + r))
  {
    hide *;
    PowNext(d);
    PowNext(d + 1);
    PowNext(d + 2);
    ShlDouble(b, d + 2);
    ShlPlus(b, 1, d + 3);
    ShlPow2(d + 3);
    ShlMono(b + 1, Pow2(m), d + 3);
    ShlPow2(m);
    ShlPow2(m + d + 3);
    ShlShl(1, m, d + 3);
    BitReversal.TwiceEven(Shl(b, d + 2) + r);
  }

  lemma ShlDouble(b: nat, n: nat)
    ensures Shl(b, n + 1) == 2 * Shl(b, n)
  {}

  lemma FoursIs(e: Eight<real>, t: nat)
    ensures Fours(e, t) == Four(t, At(e, 0), At(e, 2), At(e, 1), At(e, 3))
  {
    hide Four, At;
  }

  /** Eight values behind a butterfly that is turned by `c`. */
  lemma GroupFlown(z: seq<real>, y: seq<real>, k: Kind<real>, m: nat, d: nat, v: Cx, b: nat, t: nat, r: nat)
    requires 2 * (Shl(b, d + 2) + r) + 3 * (2 * Pow2(d)) + 1 < |z| == |y| && t < 4 && TurnsBy(k, Pow(v, BitRev(b, m)))
    requires Read8(y, 2 * Pow2(d), 2 * (Shl(b, d + 2) + r)) == Fly(RealOps(), k, Read8(z, 2 * Pow2(d), 2 * (Shl(b, d + 2) + r)))
    ensures Cval(y, Shl(b, d + 2) + Shl(t, d) + r) == Flown(z, m, d, v, b, t, r)
  {
    hide *;
    var p := Shl(b, d + 2) + r;
    var e := Read8(z, 2 * Pow2(d), 2 * p);
    CellsAt(z, d, p);
    CellsAt(y, d, p);
    FlyMeans(k, Pow(v, BitRev(b, m)), e, t);
    FoursIs(e, t);
    FlownIs(z, m, d, v, b, t, r);
    ShlNone(d);
  }

  lemma StageFlown(z: seq<real>, w: seq<real>, m: nat, d: nat, v: Cx)
    requires m >= 1 && |z| == Pow2(m + d + 3) && Table(w, v, m)
    ensures Even(Pow2(d + 1)) && Pow2(d + 1) > 0 && 8 * Pow2(d + 1) <= |z|
    ensures AllFlown(z, Stage(RealOps(), z, w, |z|, Pow2(d + 1)), m, d, v)
  {
    hide *;
    Widths(d + 1, m + d + 3);
    WidthTwo(d + 1);
    var y := Stage(RealOps(), z, w, |z|, Pow2(d + 1));
    forall b, t, r | 0 <= b < Pow2(m) && 0 <= t < 4 && 0 <= r < Pow2(d)
      ensures Cval(y, Shl(b, d + 2) + Shl(t, d) + r) == Flown(z, m, d, v, b, t, r)
    {
      GroupAt(b, m, d, r);
      StagePlaces(RealOps(), z, w, m + d + 3, d + 1, b, 2 * (Shl(b, d + 2) + r));
      KindTurns(w, v, m, b);
      GroupFlown(z, y, KindOf(RealOps(), w, b), m, d, v, b, t, r);
    }
    AllFlownIs(z, y, m, d, v);
  }

  lemma AllFlownIs(z: seq<real>, y: seq<real>, m: nat, d: nat, v: Cx)
    requires forall b, t, r :: 0 <= b < Pow2(m) && 0 <= t < 4 && 0 <= r < Pow2(d) ==>
               Cval(y, Shl(b, d + 2) + Shl(t, d) + r) == Flown(z, m, d, v, b, t, r)
    ensures AllFlown(z, y, m, d, v)
  {
    hide Cval, Flown, Shl;
  }

  /** The last stage, when it is one of four. */
  lemma LastFlown(z: seq<real>, d: nat, v: Cx)
    requires |z| == Pow2(d + 3)
    ensures Even(Pow2(d + 1) - 0) && 4 * Pow2(d + 1) == |z|
    ensures AllFlown(z, Run(RealOps(), z, Plain, Pow2(d + 1), 0, Pow2(d + 1)), 0, d, v)
  {
    hide *;
    Widths(d + 1, d + 3);
    WidthTwo(d + 1);
    EvenRange(Pow2(d + 1), 0);
    PowZero(0);
    var y := Run(RealOps(), z, Plain, Pow2(d + 1), 0, Pow2(d + 1));
    forall b, t, r | 0 <= b < Pow2(0) && 0 <= t < 4 && 0 <= r < Pow2(d)
      ensures Cval(y, Shl(b, d + 2) + Shl(t, d) + r) == Flown(z, 0, d, v, b, t, r)
    {
      GroupAt(b, 0, d, r);
      ShlNone(d + 3);
      EvenBelow(2 * (Shl(b, d + 2) + r), Pow2(d + 1));
      EvenFrom(Pow2(d + 1), 2 * (Shl(b, d + 2) + r));
      RunPlaces(RealOps(), z, Plain, Pow2(d + 1), 0, Pow2(d + 1), 2 * (Shl(b, d + 2) + r));
      BitRevNone(0);
      PowFirst(v);
      PlainTurns();
      GroupFlown(z, y, Plain, 0, d, v, b, t, r);
    }
    AllFlownIs(z, y, 0, d, v);
  }

  lemma PlainTurns()
    ensures TurnsBy(Plain, One)
  {}

  lemma EvenFrom(x: nat, y: nat)
    requires Even(x) && Even(y) && y <= x
    ensures Even(x - y)
  {}

  lemma {:induction false} PairsClear<E>(o: Ops<E>, s: seq<E>, l: nat, j: nat, z: nat)
    requires j <= l && Even(l - j) && 2 * l <= |s| && z < |s| && !(j <= z < l) && !(j + l <= z < 2 * l)
    ensures Pairs(o, s, l, j)[z] == s[z]
    decreases l - j
  {
    if j < l { PairsClear(o, PairAt(o, s, l, j), l, j + 2, z); }
  }

  lemma {:induction false} PairsPlaces(s: seq<real>, l: nat, j: nat, p: nat)
    requires j <= 2 * p && 2 * p + 2 <= l && Even(l) && Even(j) && Even(l - j) && 2 * l <= |s|
    ensures Cval(Pairs(RealOps(), s, l, j), p) == Add(Cval(s, p), Cval(s, l / 2 + p))
    ensures Cval(Pairs(RealOps(), s, l, j), l / 2 + p) == Sub(Cval(s, p), Cval(s, l / 2 + p))
    decreases l - j
  {
    hide Pairs;
    var o := RealOps();
    var t := PairAt(o, s, l, j);
    PairsNext(o, s, l, j);
    if j == 2 * p {
      PairsClear(o, t, l, j + 2, j);
      PairsClear(o, t, l, j + 2, j + 1);
      PairsClear(o, t, l, j + 2, j + l);
      PairsClear(o, t, l, j + 2, j + l + 1);
    } else {
      PairsPlaces(t, l, j + 2, p);
    }
  }

  /** The transform is done: its results are in place. */
  ghost predicate Results(y: seq<real>, x: seq<Cx>, n: nat)
  {
    forall c :: 0 <= c < Pow2(n) ==> Cval(y, c) == Item(x, c)
  }

  lemma PairsResults(z: seq<real>, d: nat, x: seq<Cx>, v: Cx)
    requires |z| == Pow2(d + 2) && Stands(z, 1, d, x, v) && v == Cx(-1.0, 0.0)
    ensures Even(Pow2(d + 1) - 0) && 2 * Pow2(d + 1) == |z|
    ensures Results(Pairs(RealOps(), z, Pow2(d + 1), 0), x, d + 1)
  {
    hide *;
    Widths(d + 1, d + 2);
    EvenRange(Pow2(d + 1), 0);
    PowNext(d);
    HalfOf(Pow2(d));
    EvenZero();
    var y := Pairs(RealOps(), z, Pow2(d + 1), 0);
    forall c | 0 <= c < Pow2(d + 1) ensures Cval(y, c) == Item(x, c) {
      var k, r := if c < Pow2(d) then 0 else 1, if c < Pow2(d) then c else c - Pow2(d);
      PairsPlaces(z, Pow2(d + 1), 0, r);
      ShlNone(d);
      ShlPow2(d);
      TwoIs();
      StandsAt(z, 1, d, x, v, k, r);
      NatTwo(z, d, r);
      TwoValues(Nat(z, 1, d, r), Cval(y, c), v, k);
    }
    ResultsIs(y, x, d + 1);
  }

  lemma EvenZero()
    ensures Even(0)
  {}

  lemma ResultsIs(y: seq<real>, x: seq<Cx>, n: nat)
    requires forall c :: 0 <= c < Pow2(n) ==> Cval(y, c) == Item(x, c)
    ensures Results(y, x, n)
  {
    hide Cval, Item;
  }

  lemma NatTwo(z: seq<real>, d: nat, r: nat)
    ensures |Nat(z, 1, d, r)| == 2 && Nat(z, 1, d, r)[0] == Cval(z, r) && Nat(z, 1, d, r)[1] == Cval(z, Pow2(d) + r)
  {
    hide *;
    TwoIs();
    NatSize(z, 1, d, r);
    NatAt(z, 1, d, r, 0);
    NatAt(z, 1, d, r, 1);
    PowZero(0);
    BitRevNone(0);
    BitRevHalf(0, 0);
    ShlNone(d);
    ShlPow2(d);
  }

  lemma NatSize(z: seq<real>, n: nat, d: nat, c: nat)
    ensures |Nat(z, n, d, c)| == Pow2(n)
  {}

  lemma FourResults(z: seq<real>, d: nat, x: seq<Cx>, v: Cx)
    requires Stands(z, 0, d, x, v)
    ensures Results(z, x, d)
  {
    hide *;
    forall c | 0 <= c < Pow2(d) ensures Cval(z, c) == Item(x, c) {
      PowZero(0);
      StandsAt(z, 0, d, x, v, 0, c);
      ShlNone(d);
      NatSize(z, 0, d, c);
      NatAt(z, 0, d, c, 0);
      BitRevNone(0);
      OneItem(Nat(z, 0, d, c));
      EvalOne(Cval(z, c), Pow(v, 0));
    }
    ResultsIs(z, x, d);
  }

  lemma OneItem(y: seq<Cx>)
    requires |y| == 1
    ensures y == [y[0]]
  {}

  /** What the remaining stages, of transforms of `1 << n` values, need to be turned by. */
  ghost predicate Rooted(w: seq<real>, v: Cx, n: nat)
  {
    if n <= 1 then v == Cx(-1.0, 0.0) else if n == 2 then v == I else Table(w, v, n - 2)
  }

  lemma RootedNext(w: seq<real>, v: Cx, n: nat)
    requires Rooted(w, v, n) && n >= 3
    ensures Table(w, v, n - 2) && Pow(v, Pow2(n - 2)) == I && Rooted(w, Pow(v, 4), n - 2)
  {
    hide Mul, Pow, BitRev, Cval, Pow2;
    TwoIs();
    Fft.FourIs();
    PowZero(0);
    if n == 3 {
      PowTwice(v, 2);
      PowFirst(v);
      MulUnit(I);
    } else if n == 4 {
    } else {
      TableShorter(w, v, n - 4, 2);
    }
  }

  /** All stages together bring the results into place. */
  lemma {:induction false} LevelsMean(z: seq<real>, w: seq<real>, e: nat, i: nat, x: seq<Cx>, v: Cx)
    requires 1 <= i < e && |z| == Pow2(e) && Stands(z, e - i, i - 1, x, v) && Rooted(w, v, e - i)
    ensures Results(Levels(RealOps(), z, w, e, i), x, e - 1)
    decreases e - i
  {
    hide *;
    LevelsNext(RealOps(), z, w, e, i);
    if i + 3 <= e {
      RootedNext(w, v, e - i);
      StageFlown(z, w, e - i - 2, i - 1, v);
      var y := Stage(RealOps(), z, w, |z|, Pow2(i));
      StandsNext(z, y, e - i - 2, i - 1, x, v);
      LevelsMean(y, w, e, i + 2, x, Pow(v, 4));
    } else if i + 2 == e {
      RootedTwo(w, v);
      PowZero(0);
      PowFirst(v);
      LastFlown(z, i - 1, v);
      var y := Run(RealOps(), z, Plain, Pow2(i), 0, Pow2(i));
      StandsNext(z, y, 0, i - 1, x, v);
      FourResults(y, i + 1, x, Pow(v, 4));
    } else {
      RootedOne(w, v);
      PairsResults(z, i - 1, x, v);
    }
  }

  lemma RootedTwo(w: seq<real>, v: Cx)
    ensures Rooted(w, v, 2) <==> v == I
  {}

  lemma RootedOne(w: seq<real>, v: Cx)
    ensures Rooted(w, v, 1) <==> v == Cx(-1.0, 0.0)
  {}

  // ----- from the reordered input to the complex results -----

  /** The first `n` complex values. */
  function Cells(s: seq<real>, n: nat): (y: seq<Cx>)
    ensures |y| == n
  {
    seq(n, j requires 0 <= j < n => Cval(s, j))
  }

  /** The complex transform of `1 << q` values. */
  function Spectrum(s: seq<real>, q: nat, root: Cx): (x: seq<Cx>)
    ensures |x| == Pow2(q)
  {
    seq(Pow2(q), k requires 0 <= k < Pow2(q) => Eval(Cells(s, Pow2(q)), Pow(root, k)))
  }

  lemma SpectrumAt(s: seq<real>, q: nat, root: Cx, k: nat)
    requires k < Pow2(q)
    ensures Item(Spectrum(s, q, root), k) == Eval(Cells(s, Pow2(q)), Pow(root, k))
  {
    hide Eval, Cells, Pow;
  }

  lemma ReorderedCells(s: seq<real>, q: nat)
    requires |s| == Pow2(q + 1)
    ensures Nat(Reordered(s, q), q, 0, 0) == Cells(s, Pow2(q))
  {
    hide BitRev, Pow2;
    var z := Reordered(s, q);
    PowNext(q);
    forall j | 0 <= j < Pow2(q) ensures Nat(z, q, 0, 0)[j] == Cval(s, j) {
      NatAt(z, q, 0, 0, j);
      BitRevBound(j, q);
      BitRevTwice(j, q);
      ShlBy0(BitRev(j, q));
    }
  }

  lemma ShlBy0(x: nat)
    ensures Shl(x, 0) == x
  {}

  lemma StandsFirst(s: seq<real>, z: seq<real>, q: nat, root: Cx)
    requires Nat(z, q, 0, 0) == Cells(s, Pow2(q))
    ensures Stands(z, q, 0, Spectrum(s, q, root), root)
  {
    hide *;
    var x := Spectrum(s, q, root);
    PowZero(0);
    forall k, c | 0 <= k < Pow2(q) && 0 <= c < Pow2(0) ensures Item(x, Shl(k, 0) + c) == Eval(Nat(z, q, 0, c), Pow(root, k)) {
      ShlBy0(k);
      SpectrumAt(s, q, root, k);
    }
    StandsIs(z, q, 0, x, root);
  }

  /** The complex part of the transform. */
  lemma ComplexMeans(s: seq<real>, w: seq<real>, p: nat, root: Cx)
    requires 2 <= p && |s| == Pow2(p) && Rooted(w, root, p - 1)
    ensures Results(Levels(RealOps(), if p == 2 then s else Reordered(s, p - 1), w, p, 1), Spectrum(s, p - 1, root), p - 1)
  {
    hide *;
    var z := if p == 2 then s else Reordered(s, p - 1);
    if p == 2 {
      TwoIs();
      CellsTwo(s);
    } else {
      ReorderedCells(s, p - 1);
    }
    StandsFirst(s, z, p - 1, root);
    LevelsMean(z, w, p, 1, Spectrum(s, p - 1, root), root);
  }

  lemma CellsTwo(s: seq<real>)
    ensures Nat(s, 1, 0, 0) == Cells(s, Pow2(1))
  {
    hide *;
    TwoIs();
    PowZero(0);
    NatTwo(s, 0, 0);
    CellsAre(s);
    TwoItems(Nat(s, 1, 0, 0), Cells(s, 2));
  }

  lemma CellsAre(s: seq<real>)
    ensures |Cells(s, 2)| == 2 && Cells(s, 2)[0] == Cval(s, 0) && Cells(s, 2)[1] == Cval(s, 1)
  {}

  lemma TwoItems(a: seq<Cx>, b: seq<Cx>)
    requires |a| == |b| == 2 && a[0] == b[0] && a[1] == b[1]
    ensures a == b
  {}

  // ----- real input -----

  function Reals(s: seq<real>): (y: seq<Cx>)
    ensures |y| == |s|
  {
    seq(|s|, j requires 0 <= j < |s| => Cx(s[j], 0.0))
  }

  /** The values at even, or at odd, places. */
  function Every2(s: seq<real>, from: nat): (r: seq<real>)
    requires from < 2 && |s| % 2 == 0
    ensures |r| == |s| / 2
  {
    seq(|s| / 2, j requires 0 <= j < |s| / 2 => s[2 * j + from])
  }

  /** A transform of real values is that of the even ones and that of the odd ones, turned. */
  lemma {:induction false} RealSplit(s: seq<real>, u: Cx)
    requires |s| % 2 == 0
    ensures var v := Mul(u, u); Eval(Reals(s), u) == Add(Eval(Reals(Every2(s, 0)), v), Mul(u, Eval(Reals(Every2(s, 1)), v)))
    decreases |s|
  {
    hide Mul, Pow;
    var v := Mul(u, u);
    if s == [] {
      MulUnit(u);
    } else {
      var n := |s| - 2;
      var t, a, b := s[..n], s[n], s[n + 1];
      RealSplit(t, u);
      RealLast(t, a);
      RealLast(t + [a], b);
      assert s == (t + [a]) + [b];
      EvalLast(Reals(t), Cx(a, 0.0), u);
      EvalLast(Reals(t + [a]), Cx(b, 0.0), u);
      EveryLast(t, a, b);
      RealLast(Every2(t, 0), a);
      RealLast(Every2(t, 1), b);
      EvalLast(Reals(Every2(t, 0)), Cx(a, 0.0), v);
      EvalLast(Reals(Every2(t, 1)), Cx(b, 0.0), v);
      PowTwice(u, n / 2);
      PowAdd(u, 1, n);
      PowFirst(u);
      MulAdd(Eval(Reals(Every2(t, 1)), v), Mul(Cx(b, 0.0), Pow(v, n / 2)), u);
      MulSwap3(Cx(b, 0.0), u, Pow(v, n / 2));
    }
  }

  lemma RealLast(s: seq<real>, a: real)
    ensures Reals(s + [a]) == Reals(s) + [Cx(a, 0.0)]
  {}

  lemma EveryLast(t: seq<real>, a: real, b: real)
    requires |t| % 2 == 0
    ensures Every2((t + [a]) + [b], 0) == Every2(t, 0) + [a] && Every2((t + [a]) + [b], 1) == Every2(t, 1) + [b]
  {}

  /** Taken in pairs as complex values, they are transformed together. */
  lemma CellsSplit(s: seq<real>, v: Cx)
    requires |s| % 2 == 0
    ensures Eval(Cells(s, |s| / 2), v) == Add(Eval(Reals(Every2(s, 0)), v), Mul(I, Eval(Reals(Every2(s, 1)), v)))
  {
    hide Mul, Eval;
    var y, a, b := Cells(s, |s| / 2), Reals(Every2(s, 0)), Reals(Every2(s, 1));
    forall j | 0 <= j < |y| ensures y[j] == Add(a[j], Mul(I, b[j])) {
      MulUnit(b[j]);
    }
    EvalSum(y, a, I, b, v);
  }

  lemma {:induction false} RealConj(s: seq<real>, u: Cx)
    ensures Eval(Reals(s), Conj(u)) == Conj(Eval(Reals(s), u))
    decreases |s|
  {
    hide Mul, Pow;
    if s != [] {
      var n := |s| - 1;
      RealConj(s[..n], u);
      RealLast(s[..n], s[n]);
      assert s == s[..n] + [s[n]];
      EvalLast(Reals(s[..n]), Cx(s[n], 0.0), u);
      EvalLast(Reals(s[..n]), Cx(s[n], 0.0), Conj(u));
      PowConj(u, n);
      MulConj(Cx(s[n], 0.0), Pow(u, n));
    }
  }

  // ----- the conversion -----

  /** What the conversion subtracts at index `t`, of `n` in all. */
  function Twist(s: seq<real>, n: nat, c: seq<real>, nc: nat, kk: nat, t: nat): Cx
    requires t <= n
  {
    Mul(Cx(0.5 - Entry(RealOps(), c, nc), Entry(RealOps(), c, kk)), Sub(Cval(s, t), Conj(Cval(s, n - t))))
  }

  lemma MixAtMeans(s: seq<real>, n: nat, c: seq<real>, t: nat, nc: nat, kk: nat, z: nat)
    requires |s| == 2 * n && 1 <= t && 2 * t < n && z < |s|
    ensures var r := MixAt(RealOps(), s, c, 2 * t, 2 * (n - t), nc, kk); var y := Twist(s, n, c, nc, kk, t);
            && Cval(r, t) == Sub(Cval(s, t), y) && Cval(r, n - t) == Add(Cval(s, n - t), Conj(y))
            && (z / 2 != t && z / 2 != n - t ==> r[z] == s[z])
  {
    hide Mul, Entry, Times;
    CxMul(0.5 - Entry(RealOps(), c, nc), Entry(RealOps(), c, kk), Sub(Cval(s, t), Conj(Cval(s, n - t))).re,
          Sub(Cval(s, t), Conj(Cval(s, n - t))).im);
  }

  lemma CvalSame(s: seq<real>, r: seq<real>, x: nat)
    requires |s| == |r| && (2 * x + 1 < |s| ==> s[2 * x] == r[2 * x] && s[2 * x + 1] == r[2 * x + 1])
    ensures Cval(s, x) == Cval(r, x)
  {}

  /** The conversion from index `t` on leaves what is before it and behind its mirror image, and the middle. */
  lemma {:induction false} MixKeeps(s: seq<real>, n: nat, c: seq<real>, t: nat, ks: nat, x: nat)
    requires |s| == 2 * n && Even(n) && 1 <= t && 2 * t <= n && Prod(n / 2, ks) <= |c| && Prod(t - 1, ks) <= |c|
    requires x < t || 2 * x == n || x > n - t
    ensures Even(2 * t) && Even(2 * n) && Even(2 * n / 2)
    ensures Cval(Mix(RealOps(), s, c, 2 * t, |c| - Prod(t - 1, ks), Prod(t, ks), ks), x) == Cval(s, x)
    decreases n - 2 * t
  {
    hide *;
    MixOne(s, n, c, t, ks);
    if 2 * t < n {
      var u := MixAt(RealOps(), s, c, 2 * t, 2 * (n - t), NatLess(|c|, Prod(t, ks)), Prod(t, ks));
      MixAtKeeps(s, n, c, t, NatLess(|c|, Prod(t, ks)), Prod(t, ks), x);
      MixKeeps(u, n, c, t + 1, ks, x);
    }
  }

  lemma MixOne(s: seq<real>, n: nat, c: seq<real>, t: nat, ks: nat)
    requires |s| == 2 * n && Even(n) && 1 <= t && 2 * t <= n && Prod(n / 2, ks) <= |c| && Prod(t - 1, ks) <= |c|
    ensures Even(2 * t) && Even(2 * n) && Even(2 * n / 2)
    ensures var r := Mix(RealOps(), s, c, 2 * t, |c| - Prod(t - 1, ks), Prod(t, ks), ks);
            if 2 * t == n then r == s
            else && 2 * (t + 1) <= n && t <= n / 2 && Prod(t, ks) <= |c| && Even(2 * (t + 1))
                 && r == Mix(RealOps(), MixAt(RealOps(), s, c, 2 * t, 2 * (n - t), NatLess(|c|, Prod(t, ks)), Prod(t, ks)), c,
                             2 * (t + 1), |c| - Prod(t, ks), Prod(t + 1, ks), ks)
  {
    hide *;
    BitReversal.TwiceEven(t);
    BitReversal.TwiceEven(t + 1);
    BitReversal.TwiceEven(n);
    HalfOf(n);
    MixNext(RealOps(), s, c, 2 * t, |c| - Prod(t - 1, ks), Prod(t, ks), ks);
    if 2 * t < n {
      HalfSteps(t, n);
      ProdMono(t, n / 2, ks);
      ProdNext(t - 1, ks);
      ProdNext(t, ks);
      NatLessIs(|c|, Prod(t, ks));
    }
  }

  /** And converts every index in between, with its mirror image. */
  lemma {:induction false} MixMeans(s: seq<real>, n: nat, c: seq<real>, t: nat, ks: nat, x: nat)
    requires |s| == 2 * n && Even(n) && 1 <= t <= x && 2 * x < n && Prod(n / 2, ks) <= |c| && Prod(t - 1, ks) <= |c|
    ensures Even(2 * t) && Even(2 * n) && Even(2 * n / 2)
    ensures var r := Mix(RealOps(), s, c, 2 * t, |c| - Prod(t - 1, ks), Prod(t, ks), ks);
            var y := Twist(s, n, c, NatLess(|c|, Prod(x, ks)), Prod(x, ks), x);
            Cval(r, x) == Sub(Cval(s, x), y) && Cval(r, n - x) == Add(Cval(s, n - x), Conj(y))
    decreases x - t
  {
    hide *;
    MixOne(s, n, c, t, ks);
    var u := MixAt(RealOps(), s, c, 2 * t, 2 * (n - t), NatLess(|c|, Prod(t, ks)), Prod(t, ks));
    if x == t {
      MixAtMeans(s, n, c, t, NatLess(|c|, Prod(t, ks)), Prod(t, ks), 0);
      MixKeeps(u, n, c, t + 1, ks, x);
      MixKeeps(u, n, c, t + 1, ks, n - x);
    } else {
      MixAtKeeps(s, n, c, t, NatLess(|c|, Prod(t, ks)), Prod(t, ks), x);
      MixAtKeeps(s, n, c, t, NatLess(|c|, Prod(t, ks)), Prod(t, ks), n - x);
      TwistIs(s, u, n, c, NatLess(|c|, Prod(x, ks)), Prod(x, ks), x);
      MixMeans(u, n, c, t + 1, ks, x);
    }
  }

  function NatLess(a: nat, b: nat): nat { if b <= a then a - b else 0 }

  lemma NatLessIs(a: nat, b: nat)
    requires b <= a
    ensures NatLess(a, b) == a - b
  {}

  lemma HalfSteps(t: nat, n: nat)
    requires 2 * t < n && Even(n)
    ensures 2 * (t + 1) <= n && t <= n / 2
  {}

  lemma TwistIs(s: seq<real>, u: seq<real>, n: nat, c: seq<real>, nc: nat, kk: nat, t: nat)
    requires t <= n && Cval(s, t) == Cval(u, t) && Cval(s, n - t) == Cval(u, n - t)
    ensures Twist(s, n, c, nc, kk, t) == Twist(u, n, c, nc, kk, t)
  {
    hide Mul, Entry, Cval;
  }

  lemma MixAtKeeps(s: seq<real>, n: nat, c: seq<real>, t: nat, nc: nat, kk: nat, x: nat)
    requires |s| == 2 * n && 1 <= t && 2 * t < n && x != t && x != n - t
    ensures Cval(MixAt(RealOps(), s, c, 2 * t, 2 * (n - t), nc, kk), x) == Cval(s, x)
  {
    hide *;
    var r := MixAt(RealOps(), s, c, 2 * t, 2 * (n - t), nc, kk);
    if 2 * x + 1 < |s| {
      MixAtMeans(s, n, c, t, nc, kk, 2 * x);
      MixAtMeans(s, n, c, t, nc, kk, 2 * x + 1);
    }
    CvalSame(r, s, x);
  }

  // ----- the transform of real input -----

  /** The roots of unity of order `2 << q`, by the one whose half power is the imaginary unit. */
  predicate UnitRoot(rho: Cx, q: nat) { OnCircle(rho) && (if q == 0 then rho == Cx(-1.0, 0.0) else Pow(rho, Pow2(q - 1)) == I) }

  /** The first two of them. */
  lemma FirstRoots()
    ensures UnitRoot(Cx(-1.0, 0.0), 0) && UnitRoot(Cx(0.0, 1.0), 1)
  {
    assert Pow(I, 1) == Mul(I, Pow(I, 0));
  }

  /** The table of the conversion: half cosines, which read from the other end are half sines. */
  ghost predicate HalfTable(c: seq<real>, rho: Cx, n: nat)
    requires n > 0
  {
    var ks := 2 * |c| / n;
    && |c| >= n / 2
    && forall t :: 1 <= t && 2 * t < n ==>
         && Entry(RealOps(), c, NatLess(|c|, Prod(t, ks))) == Pow(rho, t).im / 2.0
         && Entry(RealOps(), c, Prod(t, ks)) == Pow(rho, t).re / 2.0
  }

  /** The transforms of the even and the odd values. */
  function Part(s: seq<real>, from: nat, v: Cx): Cx
    requires from < 2 && |s| % 2 == 0
  {
    Eval(Reals(Every2(s, from)), v)
  }

  lemma Inverse(a: Cx, b: Cx, q: Cx)
    requires Mul(a, b) == q && OnCircle(b)
    ensures a == Mul(q, Conj(b))
  {
    hide Mul;
    ConjCircle(b);
    MulAssoc(a, b, Conj(b));
    MulUnit(a);
  }

  lemma ConjCircle(b: Cx)
    requires OnCircle(b)
    ensures Mul(b, Conj(b)) == One
  {}

  lemma PowersOfRoot(rho: Cx, q: nat)
    requires UnitRoot(rho, q) && q >= 1
    ensures var root := Mul(rho, rho);
            OnCircle(root) && Pow(rho, Pow2(q)) == Cx(-1.0, 0.0) && Pow(root, Pow2(q)) == One
  {
    hide Mul, Pow, OnCircle, Pow2;
    PowNext(q - 1);
    PowTwice(rho, Pow2(q - 1));
    MulUnit(I);
    PowTwice(rho, Pow2(q));
    PowMul(rho, rho, Pow2(q));
    MulUnit(Cx(-1.0, 0.0));
    MulCircle(rho, rho);
  }

  /** The power at the mirror image of an index. */
  lemma Mirrored(w: Cx, n: nat, t: nat, q: Cx)
    requires OnCircle(w) && Pow(w, n) == q && t <= n
    ensures Pow(w, n - t) == Mul(q, Conj(Pow(w, t)))
  {
    hide Mul, Pow, OnCircle;
    PowAdd(w, n - t, t);
    PowCircle(w, t);
    Inverse(Pow(w, n - t), Pow(w, t), q);
  }

  lemma TwistAlgebra(e: Cx, o: Cx, u: Cx)
    ensures Mul(Cx(0.5 - u.im / 2.0, u.re / 2.0), Sub(Add(e, Mul(I, o)), Sub(e, Mul(I, o)))) == Sub(Mul(I, o), Mul(u, o))
  {
    MulUnit(o);
    TwistParts(u.re, u.im, o.re, o.im);
  }

  lemma TwistParts(a: real, b: real, x: real, y: real)
    ensures (0.5 - b / 2.0) * (-2.0 * y) - (a / 2.0) * (2.0 * x) == -y - (a * x - b * y)
    ensures (0.5 - b / 2.0) * (2.0 * x) + (a / 2.0) * (-2.0 * y) == x - (a * y + b * x)
  {}

  lemma ConjParts(e: Cx, o: Cx, u: Cx)
    ensures Add(Conj(e), Mul(I, Conj(o))) == Conj(Sub(e, Mul(I, o)))
    ensures Add(Conj(Sub(e, Mul(I, o))), Conj(Sub(Mul(I, o), Mul(u, o)))) == Add(Conj(e), Mul(Mul(Cx(-1.0, 0.0), Conj(u)), Conj(o)))
    ensures Sub(Add(e, Mul(I, o)), Sub(Mul(I, o), Mul(u, o))) == Add(e, Mul(u, o))
  {
    hide Mul;
    MulUnit(o);
    MulUnit(Conj(o));
    MulUnit(Conj(u));
    MulConj(u, o);
    MulUnit(Mul(Conj(u), Conj(o)));
    MulAssoc(Cx(-1.0, 0.0), Conj(u), Conj(o));
  }

  lemma SpectrumParts(s: seq<real>, q: nat, root: Cx, t: nat)
    requires |s| == 2 * Pow2(q) && t < Pow2(q)
    ensures |s| % 2 == 0
    ensures var v := Pow(root, t); Item(Spectrum(s, q, root), t) == Add(Part(s, 0, v), Mul(I, Part(s, 1, v)))
  {
    hide Mul, Pow, Eval, Cells, Pow2, Item, Spectrum;
    SpectrumAt(s, q, root, t);
    HalfOf(Pow2(q));
    CellsSplit(s, Pow(root, t));
  }

  lemma RealParts(s: seq<real>, rho: Cx, t: nat)
    requires |s| % 2 == 0
    ensures var v := Pow(Mul(rho, rho), t); Eval(Reals(s), Pow(rho, t)) == Add(Part(s, 0, v), Mul(Pow(rho, t), Part(s, 1, v)))
  {
    hide Mul, Pow, Eval;
    PowMul(rho, rho, t);
    RealSplit(s, Pow(rho, t));
  }

  lemma PartMirror(s: seq<real>, from: nat, root: Cx, n: nat, t: nat)
    requires from < 2 && |s| % 2 == 0 && OnCircle(root) && Pow(root, n) == One && t <= n
    ensures Part(s, from, Pow(root, n - t)) == Conj(Part(s, from, Pow(root, t)))
  {
    hide Mul, Pow, Eval, OnCircle;
    Mirrored(root, n, t, One);
    MulUnit(Conj(Pow(root, t)));
    RealConj(Every2(s, from), Pow(root, t));
  }

  lemma ResultAt(y: seq<real>, x: seq<Cx>, n: nat, c: nat)
    requires Results(y, x, n) && c < Pow2(n)
    ensures Cval(y, c) == Item(x, c)
  {
    hide Cval, Item;
  }

  /** The complex results at an index and at its mirror image, by the transforms of the even and of the odd values. */
  lemma PairOfResults(s: seq<real>, y: seq<real>, q: nat, rho: Cx, t: nat)
    requires q >= 1 && |s| == 2 * Pow2(q) && UnitRoot(rho, q) && 1 <= t < Pow2(q)
    requires Results(y, Spectrum(s, q, Mul(rho, rho)), q)
    ensures |s| % 2 == 0
    ensures var v := Pow(Mul(rho, rho), t); var e, o := Part(s, 0, v), Part(s, 1, v);
            && Cval(y, t) == Add(e, Mul(I, o)) && Cval(y, Pow2(q) - t) == Conj(Sub(e, Mul(I, o)))
            && Eval(Reals(s), Pow(rho, t)) == Add(e, Mul(Pow(rho, t), o))
            && Eval(Reals(s), Pow(rho, Pow2(q) - t)) == Add(Conj(e), Mul(Mul(Cx(-1.0, 0.0), Conj(Pow(rho, t))), Conj(o)))
  {
    hide *;
    var root, n := Mul(rho, rho), Pow2(q);
    SpectrumParts(s, q, root, t);
    SpectrumParts(s, q, root, n - t);
    ResultAt(y, Spectrum(s, q, root), q, t);
    ResultAt(y, Spectrum(s, q, root), q, n - t);
    RealParts(s, rho, t);
    RealParts(s, rho, n - t);
    PowersOfRoot(rho, q);
    RootCircle(rho, q);
    PartMirror(s, 0, root, n, t);
    PartMirror(s, 1, root, n, t);
    Mirrored(rho, n, t, Cx(-1.0, 0.0));
    ConjParts(Part(s, 0, Pow(root, t)), Part(s, 1, Pow(root, t)), Pow(rho, t));
  }

  lemma RootCircle(rho: Cx, q: nat)
    requires UnitRoot(rho, q)
    ensures OnCircle(rho) && (q >= 1 ==> Pow(rho, Pow2(q - 1)) == I) && (q == 0 ==> rho == Cx(-1.0, 0.0))
  {}

  lemma HalfTableAt(c: seq<real>, rho: Cx, n: nat, t: nat)
    requires n > 0 && HalfTable(c, rho, n) && 1 <= t && 2 * t < n
    ensures var ks := 2 * |c| / n; var u := Pow(rho, t);
            && Entry(RealOps(), c, NatLess(|c|, Prod(t, ks))) == u.im / 2.0 && Entry(RealOps(), c, Prod(t, ks)) == u.re / 2.0
  {
    hide Pow, Entry, Prod, NatLess;
  }

  lemma TwistOf(s: seq<real>, n: nat, c: seq<real>, nc: nat, kk: nat, t: nat, u: Cx)
    requires t <= n && Entry(RealOps(), c, nc) == u.im / 2.0 && Entry(RealOps(), c, kk) == u.re / 2.0
    ensures Twist(s, n, c, nc, kk, t) == Mul(Cx(0.5 - u.im / 2.0, u.re / 2.0), Sub(Cval(s, t), Conj(Cval(s, n - t))))
  {
    hide Mul, Entry, Cval, Sub, Conj;
  }

  lemma ConjTwice(a: Cx)
    ensures Conj(Conj(a)) == a
  {}

  /** An index and its mirror image after the conversion. */
  lemma PairConverted(s: seq<real>, y: seq<real>, r: seq<real>, c: seq<real>, q: nat, rho: Cx, t: nat)
    requires q >= 1 && |s| == 2 * Pow2(q) && UnitRoot(rho, q) && 1 <= t && 2 * t < Pow2(q)
    requires Results(y, Spectrum(s, q, Mul(rho, rho)), q) && HalfTable(c, rho, Pow2(q))
    requires var ks := 2 * |c| / Pow2(q); var w := Twist(y, Pow2(q), c, NatLess(|c|, Prod(t, ks)), Prod(t, ks), t);
             Cval(r, t) == Sub(Cval(y, t), w) && Cval(r, Pow2(q) - t) == Add(Cval(y, Pow2(q) - t), Conj(w))
    ensures Cval(r, t) == Eval(Reals(s), Pow(rho, t)) && Cval(r, Pow2(q) - t) == Eval(Reals(s), Pow(rho, Pow2(q) - t))
  {
    hide *;
    var n, ks, u := Pow2(q), 2 * |c| / Pow2(q), Pow(rho, t);
    PairOfResults(s, y, q, rho, t);
    HalfTableAt(c, rho, n, t);
    var v := Pow(Mul(rho, rho), t);
    var e, o := Part(s, 0, v), Part(s, 1, v);
    ConjTwice(Sub(e, Mul(I, o)));
    TwistOf(y, n, c, NatLess(|c|, Prod(t, ks)), Prod(t, ks), t, u);
    TwistAlgebra(e, o, u);
    ConjParts(e, o, u);
  }

  /** In the middle nothing needs to be converted. */
  lemma MiddleResult(s: seq<real>, y: seq<real>, q: nat, rho: Cx)
    requires q >= 1 && |s| == 2 * Pow2(q) && UnitRoot(rho, q) && Results(y, Spectrum(s, q, Mul(rho, rho)), q)
    ensures Cval(y, Pow2(q - 1)) == Eval(Reals(s), Pow(rho, Pow2(q - 1)))
  {
    hide *;
    PowNext(q - 1);
    PowPositive(q - 1);
    RootCircle(rho, q);
    PairOfResults(s, y, q, rho, Pow2(q - 1));
  }

  lemma HalfTableSize(c: seq<real>, rho: Cx, n: nat)
    requires n > 0 && HalfTable(c, rho, n)
    ensures |c| >= n / 2
  {
    hide Pow, Entry, Prod, NatLess;
  }

  /** After the conversion every index but the first has the transform of the real values. */
  lemma MixAllMeans(s: seq<real>, y: seq<real>, c: seq<real>, q: nat, rho: Cx, t: nat)
    requires q >= 2 && |s| == |y| == 2 * Pow2(q) == Pow2(q + 1) && UnitRoot(rho, q) && t < Pow2(q)
    requires Results(y, Spectrum(s, q, Mul(rho, rho)), q) && HalfTable(c, rho, Pow2(q))
    ensures Cval(MixAll(RealOps(), y, c, q + 1), t) == if t == 0 then Cval(y, 0) else Eval(Reals(s), Pow(rho, t))
  {
    hide *;
    var n := Pow2(q);
    var ks := 2 * |c| / n;
    PowNext(q - 1);
    BitReversal.TwiceEven(Pow2(q - 1));
    HalfOf(n);
    HalfOf(Pow2(q - 1));
    WidthTwo(q);
    HalfTableSize(c, rho, n);
    Stride(|c|, n);
    ProdNext(0, ks);
    TwoIs();
    MixAllIs(RealOps(), y, c, q + 1);
    var r := MixAll(RealOps(), y, c, q + 1);
    if t == 0 || 2 * t == n {
      MixKeeps(y, n, c, 1, ks, t);
      if t > 0 { MiddleResult(s, y, q, rho); }
    } else {
      var x := if 2 * t < n then t else n - t;
      MixMeans(y, n, c, 1, ks, x);
      PairConverted(s, y, r, c, q, rho, x);
    }
  }

  lemma CrossingMeans(y: seq<real>, t: nat)
    requires |y| >= 2
    ensures t > 0 ==> Cval(Crossing(RealOps(), y), t) == Cval(y, t)
    ensures Crossing(RealOps(), y)[0] == Cval(y, 0).re + Cval(y, 0).im && Crossing(RealOps(), y)[1] == Cval(y, 0).re - Cval(y, 0).im
  {}

  /** At the unit and at its negative the transform of real values is real. */
  lemma FirstResult(s: seq<real>, q: nat, root: Cx)
    requires |s| == 2 * Pow2(q)
    ensures Pow2(q) > 0
    ensures var z := Item(Spectrum(s, q, root), 0);
            z.re + z.im == Eval(Reals(s), One).re && z.re - z.im == Eval(Reals(s), Cx(-1.0, 0.0)).re
  {
    hide *;
    PowPositive(q);
    SpectrumParts(s, q, root, 0);
    PowFirst(root);
    MulUnit(One);
    MulUnit(Cx(-1.0, 0.0));
    RealSplit(s, One);
    RealSplit(s, Cx(-1.0, 0.0));
    var e, o := Part(s, 0, One), Part(s, 1, One);
    PartIs(s, 0, One);
    PartIs(s, 1, One);
    RealConj(Every2(s, 0), One);
    RealConj(Every2(s, 1), One);
    ConjOne();
    SelfConj(e);
    SelfConj(o);
    MulUnit(o);
    AddParts(e, o);
  }

  lemma PartIs(s: seq<real>, from: nat, v: Cx)
    requires from < 2 && |s| % 2 == 0
    ensures Part(s, from, v) == Eval(Reals(Every2(s, from)), v)
  {}

  lemma ConjOne()
    ensures Conj(One) == One && Mul(One, One) == One && Mul(Cx(-1.0, 0.0), Cx(-1.0, 0.0)) == One
  {
    hide Mul;
    MulUnit(One);
    MulUnit(Cx(-1.0, 0.0));
  }

  lemma SelfConj(a: Cx)
    requires Conj(a) == a
    ensures a.im == 0.0
  {}

  lemma AddParts(e: Cx, o: Cx)
    ensures Add(e, o).re == e.re + o.re && Add(e, Cx(-o.im, o.re)) == Cx(e.re - o.im, e.im + o.re)
    ensures Add(e, Cx(-o.re, -o.im)).re == e.re - o.re
  {}

  /** The tables `rdft` works with. */
  ghost predicate Tables(w: seq<real>, c: seq<real>, p: nat, rho: Cx)
    requires p >= 1
  {
    && UnitRoot(rho, p - 1) && (p >= 4 ==> Table(w, Mul(rho, rho), p - 3)) && (p >= 3 ==> |c| >= 0 && HalfTable(c, rho, HalfLength(p)))
  }

  function HalfLength(p: nat): (n: nat)
    requires p >= 1
    ensures n > 0 && n == Pow2(p - 1)
  {
    PowPositive(p - 1);
    Pow2(p - 1)
  }

  lemma RootedFirst(w: seq<real>, c: seq<real>, p: nat, rho: Cx)
    requires p >= 2 && Tables(w, c, p, rho)
    ensures Rooted(w, Mul(rho, rho), p - 1) && UnitRoot(rho, p - 1) && (p >= 3 ==> Pow2(p - 1) > 0 && HalfTable(c, rho, Pow2(p - 1)))
  {
    hide HalfTable, Table, Pow, Mul;
    PowZero(0);
    TwoIs();
    PowFirst(rho);
    PowTwice(rho, 1);
    MulUnit(I);
  }

  /** `rdft`: with the tables of a root of unity, value `t` of the result is the discrete Fourier sum of the input at the
      `t`-th power of the root; the two real ones, at the unit and at its negative, come first. */
  lemma RdftMeans(s: seq<real>, w: seq<real>, c: seq<real>, p: nat, rho: Cx, t: nat)
    requires 1 <= p && |s| == Pow2(p) && Tables(w, c, p, rho) && t < Pow2(p - 1)
    ensures |s| >= 2
    ensures t > 0 ==> Cval(Rdft(RealOps(), s, w, c, p), t) == Eval(Reals(s), Pow(rho, t))
    ensures Rdft(RealOps(), s, w, c, p)[0] == Eval(Reals(s), One).re
    ensures Rdft(RealOps(), s, w, c, p)[1] == Eval(Reals(s), Cx(-1.0, 0.0)).re
  {
    hide *;
    var q, root := p - 1, Mul(rho, rho);
    PowNext(q);
    PowPositive(q);
    RdftIs(RealOps(), s, w, c, p);
    FirstResult(s, q, root);
    var y := s;
    if p == 1 {
      PowZero(0);
      SmallSpectrum(s, root);
    } else {
      RootedFirst(w, c, p, rho);
      ComplexMeans(s, w, p, root);
      var z := Levels(RealOps(), if p == 2 then s else Reordered(s, q), w, p, 1);
      ResultAt(z, Spectrum(s, q, root), q, 0);
      y := z;
      if p == 2 {
        TwoIs();
        PowZero(0);
        if t > 0 { MiddleResult(s, z, q, rho); }
      } else {
        y := MixAll(RealOps(), z, c, p);
        MixAllMeans(s, z, c, q, rho, 0);
        MixAllMeans(s, z, c, q, rho, t);
      }
    }
    CrossingMeans(y, t);
  }

  lemma SmallSpectrum(s: seq<real>, root: Cx)
    requires |s| == 2
    ensures Item(Spectrum(s, 0, root), 0) == Cval(s, 0)
  {
    hide *;
    PowZero(0);
    SpectrumAt(s, 0, root, 0);
    CellOne(s);
    OneItem(Cells(s, 1));
    EvalOne(Cval(s, 0), Pow(root, 0));
  }

  lemma CellOne(s: seq<real>)
    ensures |Cells(s, 1)| == 1 && Cells(s, 1)[0] == Cval(s, 0)
  {}
}
