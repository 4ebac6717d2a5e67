/** The reordering before the transform: complex values change places with those at the bit-reversed index. */
module BitReversal {
  import opened BitStrings

  // ----- reversing bits -----

  function Reverse(b: Bits): (r: Bits)
    ensures |r| == |b|
  {
    if b == [] then [] else Reverse(b[1..]) + [b[0]]
  }

  /** `x` with its `n` bits in the opposite order. */
  function BitRev(x: nat, n: nat): (r: nat)
    ensures r < Pow2(n)
  {
    Val(Reverse(Enc(x, n)))
  }

  lemma {:induction false} ReverseConcat(a: Bits, b: Bits)
    ensures Reverse(a + b) == Reverse(b) + Reverse(a)
    decreases |a|
  {
    if a == [] {
      assert a + b == b;
    } else {
      ReverseConcat(a[1..], b);
      assert (a + b)[1..] == a[1..] + b;
      Assoc(Reverse(b), Reverse(a[1..]), [a[0]]);
    }
  }

  lemma {:induction false} ReverseTwice(b: Bits)
    ensures Reverse(Reverse(b)) == b
  {
    if b != [] {
      ReverseTwice(b[1..]);
      ReverseConcat(Reverse(b[1..]), [b[0]]);
      assert [b[0]][1..] == [];
    }
  }

  lemma BitRevBits(x: nat, n: nat)
    ensures Enc(BitRev(x, n), n) == Reverse(Enc(x, n))
  {
    EncVal(Reverse(Enc(x, n)));
  }

  /** Reversing twice is nothing. */
  lemma BitRevTwice(x: nat, n: nat)
    requires x < Pow2(n)
    ensures BitRev(BitRev(x, n), n) == x
  {
    hide *;
    var y := BitRev(x, n);
    BitRevBits(x, n);
    BitRevBits(y, n);
    ReverseTwice(Enc(x, n));
    BitRevBound(y, n);
    EncInjective(BitRev(y, n), x, n);
  }

  lemma BitRevBound(x: nat, n: nat)
    ensures BitRev(x, n) < Pow2(n)
  {}

  // ----- the offsets -----

  /** The table holds the bit-reversed rows. */
  ghost predicate Offsets(ip: seq<nat>, t: nat, p: nat)
    requires t <= p
  {
    |ip| >= Pow2(t) && forall u :: 0 <= u < Pow2(t) ==> ip[u] == Shl(BitRev(u, t), p - t)
  }

  lemma EncHalf(j: nat, t: nat)
    requires j < Pow2(t)
    ensures Enc(j, t + 1) == [false] + Enc(j, t) && Enc(j + Pow2(t), t + 1) == [true] + Enc(j, t)
  {
    hide *;
    ShlPow2(t);
    BitIs();
    EncShiftIn(0, j, 1, t);
    EncShiftIn(1, j, 1, t);
    ShlNone(t);
  }

  lemma BitIs()
    ensures Enc(0, 1) == [false] && Enc(1, 1) == [true]
  {
    assert Enc(0, 0) == [];
  }

  lemma {:induction false} ShlNone(n: nat)
    ensures Shl(0, n) == 0
  {
    if n > 0 { ShlNone(n - 1); }
  }

  lemma BitRevHalf(j: nat, t: nat)
    requires j < Pow2(t)
    ensures BitRev(j, t + 1) == 2 * BitRev(j, t) && BitRev(j + Pow2(t), t + 1) == 2 * BitRev(j, t) + 1
  {
    hide Enc, Pow2, Reverse;
    EncHalf(j, t);
    var r := Reverse(Enc(j, t));
    ReverseConcat([false], Enc(j, t));
    ReverseConcat([true], Enc(j, t));
    ReverseOne(false);
    ReverseOne(true);
    assert (r + [false])[..|r|] == r && (r + [true])[..|r|] == r;
  }

  lemma ReverseOne(b: bool)
    ensures Reverse([b]) == [b]
  {}

  lemma ShlHalf(r: nat, s: nat)
    requires s >= 1
    ensures Shl(2 * r, s - 1) == Shl(r, s) && Shl(2 * r + 1, s - 1) == Shl(r, s) + Pow2(s - 1)
  {
    hide *;
    ShlPow2(s - 1);
    ShlPlus(2 * r, 1, s - 1);
    ShlShl(r, 1, s - 1);
    ShlTwice(r);
  }

  lemma ShlTwice(r: nat)
    ensures Shl(r, 1) == 2 * r
  {
    assert Shl(r, 0) == r;
  }

  lemma OffsetsBegin(ip: seq<nat>, p: nat)
    requires |ip| >= 1 && ip[0] == 0
    ensures Offsets(ip, 0, p)
  {
    assert Pow2(0) == 1;
    assert BitRev(0, 0) < Pow2(0);
    ShlNone(p);
  }

  lemma OffsetsNext(ip: seq<nat>, next: seq<nat>, t: nat, p: nat)
    requires t < p && Offsets(ip, t, p) && |next| >= Pow2(t + 1)
    requires forall j :: 0 <= j < Pow2(t) ==> next[j] == ip[j] && next[j + Pow2(t)] == ip[j] + Pow2(p - t - 1)
    ensures Offsets(next, t + 1, p)
  {
    hide Shl, BitRev;
    forall u | 0 <= u < Pow2(t + 1) ensures next[u] == Shl(BitRev(u, t + 1), p - t - 1) {
      var j := if u < Pow2(t) then u else u - Pow2(t);
      BitRevHalf(j, t);
      ShlHalf(BitRev(j, t), p - t);
      assert next[j] == ip[j];
    }
  }

  // ----- cells -----

  /** The complex value at an even place. */
  function Cell<T>(s: seq<T>, z: nat): (T, T)
    requires z + 1 < |s|
  {
    (s[z], s[z + 1])
  }

  function Exchange<T>(s: seq<T>, x: nat, y: nat): (r: seq<T>)
    requires x + 1 < |s| && y + 1 < |s|
    ensures |r| == |s|
  {
    s[x := s[y]][x + 1 := s[y + 1]][y := s[x]][y + 1 := s[x + 1]]
  }

  predicate Even(z: nat) { z % 2 == 0 }

  lemma EvenApart(x: nat, y: nat)
    requires Even(x) && Even(y)
    ensures x + 1 != y && y + 1 != x
  {}

  lemma ExchangeCell<T>(s: seq<T>, x: nat, y: nat, z: nat)
    requires Even(x) && Even(y) && Even(z) && x != y && x + 1 < |s| && y + 1 < |s| && z + 1 < |s|
    ensures Cell(Exchange(s, x, y), z)
         == if z == x then Cell(s, y) else if z == y then Cell(s, x) else Cell(s, z)
  {
    hide Even;
    EvenApart(x, y);
    EvenApart(x, z);
    EvenApart(y, z);
  }

  method Swap<T>(a: array<T>, x: nat, y: nat)
    requires x + 1 < a.Length && y + 1 < a.Length && Even(x) && Even(y) && x != y
    modifies a
    ensures a[..] == Exchange(old(a[..]), x, y)
  {
    EvenApart(x, y);
    var xr, xi := a[x], a[x + 1];
    var yr, yi := a[y], a[y + 1];
    a[x], a[x + 1] := yr, yi;
    a[y], a[y + 1] := xr, xi;
  }

  /** Bits `2 * m * b` of an address. */
  function Off(m: nat, b: nat): nat {
    if b == 0 then 0 else if b == 1 then 2 * m else if b == 2 then 4 * m else 6 * m
  }

  /** The middle bits reversed: two of them, or one. */
  function Turn(mid: nat, b: nat): (r: nat)
    ensures mid == 2 || mid == 4 ==> b < mid ==> r < mid
    ensures mid == 2 || mid == 4 ==> b < mid ==> (r == b <==> (mid == 2 || b == 0 || b == 3))
  {
    if mid == 4 && b == 1 then 2 else if mid == 4 && b == 2 then 1 else b
  }

  /** Rows stand at least `2 * mid * m` apart. */
  ghost predicate Spread(ip: seq<nat>, m: nat, mid: nat, n: nat) {
    && (mid == 2 || mid == 4) && m <= |ip|
    && (forall u :: 0 <= u < m ==> Even(ip[u]) && ip[u] + Off(m, mid - 1) + 2 * m <= n)
    && forall u, v :: 0 <= u < v < m ==>
         ip[u] + Off(m, mid - 1) + 2 * m <= ip[v] || ip[v] + Off(m, mid - 1) + 2 * m <= ip[u]
  }

  ghost predicate Place(m: nat, mid: nat, u: nat, b: nat, c: nat) { u < m && b < mid && c < m }

  /** Where row `u`, middle bits `b`, column `c` stands. */
  ghost function At(ip: seq<nat>, m: nat, u: nat, b: nat, c: nat): nat
    requires u < |ip|
  {
    ip[u] + Off(m, b) + 2 * c
  }

  lemma AtFits(ip: seq<nat>, m: nat, mid: nat, n: nat, u: nat, b: nat, c: nat)
    requires Spread(ip, m, mid, n) && Place(m, mid, u, b, c)
    ensures u < |ip| && Even(At(ip, m, u, b, c)) && At(ip, m, u, b, c) + 1 < n
  {
    hide Even;
    OffEven(m, b);
    EvenSum(ip[u], Off(m, b));
    EvenSum(ip[u] + Off(m, b), 2 * c);
    TwiceEven(c);
  }

  lemma EvenSum(x: nat, y: nat)
    requires Even(x) && Even(y)
    ensures Even(x + y)
  {}

  lemma TwiceEven(x: nat)
    ensures Even(2 * x)
  {}

  lemma OffEven(m: nat, b: nat)
    ensures Even(Off(m, b))
  {
    hide Even;
    TwiceEven(0);
    TwiceEven(m);
    TwiceEven(2 * m);
    TwiceEven(3 * m);
  }

  lemma AtDistinct(ip: seq<nat>, m: nat, mid: nat, n: nat, u: nat, b: nat, c: nat, v: nat, d: nat, e: nat)
    requires Spread(ip, m, mid, n) && Place(m, mid, u, b, c) && Place(m, mid, v, d, e)
    requires (u, b, c) != (v, d, e)
    ensures u < |ip| && v < |ip| && At(ip, m, u, b, c) != At(ip, m, v, d, e)
  {
    hide Even;
    if u < v { assert 0 <= u < v < m; } else if v < u { assert 0 <= v < u < m; }
  }

  // ----- one pair of rows -----

  /** Rows `k` and `j`: each cell of one with column the other changes places with its mirror image. */
  ghost function Crossed<T>(s: seq<T>, ip: seq<nat>, m: nat, mid: nat, n: nat, k: nat, j: nat, b: nat): (r: seq<T>)
    requires Spread(ip, m, mid, n) && j < m && k < m && n <= |s| && b <= mid
    ensures |r| == |s|
    decreases b
  {
    if b == 0 then s
    else
      AtFits(ip, m, mid, n, k, b - 1, j);
      AtFits(ip, m, mid, n, j, Turn(mid, b - 1), k);
      Exchange(Crossed(s, ip, m, mid, n, k, j, b - 1), At(ip, m, k, b - 1, j), At(ip, m, j, Turn(mid, b - 1), k))
  }

  /** Which cell a cell's value comes from, when the first `b` exchanges are made. */
  ghost function Partner(mid: nat, k: nat, j: nat, d: nat, u: nat, b: nat, c: nat): (nat, nat, nat) {
    if (u == k && c == j && b < d) || (u == j && c == k && Turn(mid, b) < d) then (c, Turn(mid, b), u) else (u, b, c)
  }

  lemma TurnTwice(mid: nat, b: nat)
    requires (mid == 2 || mid == 4) && b < mid
    ensures Turn(mid, b) < mid && Turn(mid, Turn(mid, b)) == b
  {}

  lemma {:induction false} CrossedCell<T>(s: seq<T>, ip: seq<nat>, m: nat, mid: nat, n: nat, k: nat, j: nat, d: nat,
                                          u: nat, b: nat, c: nat)
    requires Spread(ip, m, mid, n) && j < m && k < m && j != k && n <= |s| && d <= mid && Place(m, mid, u, b, c)
    ensures var (v, e, f) := Partner(mid, k, j, d, u, b, c);
            Place(m, mid, v, e, f) && v < |ip| && At(ip, m, v, e, f) + 1 < |s| && At(ip, m, u, b, c) + 1 < |s|
            && Cell(Crossed(s, ip, m, mid, n, k, j, d), At(ip, m, u, b, c)) == Cell(s, At(ip, m, v, e, f))
    decreases d
  {
    hide At, Spread, Even, Exchange, Off, Cell;
    SpreadMid(ip, m, mid, n);
    TurnTwice(mid, b);
    AtFits(ip, m, mid, n, u, b, c);
    AtFits(ip, m, mid, n, c, Turn(mid, b), u);
    if d > 0 {
      var h := d - 1;
      TurnTwice(mid, h);
      CrossedCell(s, ip, m, mid, n, k, j, h, u, b, c);
      CrossedCell(s, ip, m, mid, n, k, j, h, k, h, j);
      CrossedCell(s, ip, m, mid, n, k, j, h, j, Turn(mid, h), k);
      AtFits(ip, m, mid, n, k, h, j);
      AtFits(ip, m, mid, n, j, Turn(mid, h), k);
      AtDistinct(ip, m, mid, n, k, h, j, j, Turn(mid, h), k);
      if (u, b, c) != (k, h, j) { AtDistinct(ip, m, mid, n, u, b, c, k, h, j); }
      if (u, b, c) != (j, Turn(mid, h), k) { AtDistinct(ip, m, mid, n, u, b, c, j, Turn(mid, h), k); }
      ExchangeCell(Crossed(s, ip, m, mid, n, k, j, h), At(ip, m, k, h, j), At(ip, m, j, Turn(mid, h), k),
                   At(ip, m, u, b, c));
    }
  }

  lemma SpreadMid(ip: seq<nat>, m: nat, mid: nat, n: nat)
    requires Spread(ip, m, mid, n)
    ensures (mid == 2 || mid == 4) && m <= |ip|
  {}

  // ----- the transposition -----

  predicate Done(k: nat, j: nat, u: nat, c: nat) { (u < k && c < k) || (u == k && c < j) || (c == k && u < j) }

  /** All pairs of rows before `k`, and row `k` with the rows before `j`, are crossed. */
  ghost predicate Progress<T>(s: seq<T>, was: seq<T>, ip: seq<nat>, m: nat, mid: nat, n: nat, k: nat, j: nat) {
    && Spread(ip, m, mid, n) && n <= |s| == |was|
    && forall u: nat, b: nat, c: nat :: Place(m, mid, u, b, c) ==>
         Cell(s, At(ip, m, u, b, c))
         == if Done(k, j, u, c) then Cell(was, At(ip, m, c, Turn(mid, b), u)) else Cell(was, At(ip, m, u, b, c))
  }

  lemma ProgressAt<T>(s: seq<T>, was: seq<T>, ip: seq<nat>, m: nat, mid: nat, n: nat, k: nat, j: nat,
                      u: nat, b: nat, c: nat)
    requires Progress(s, was, ip, m, mid, n, k, j) && Place(m, mid, u, b, c)
    ensures u < |ip| && c < |ip| && At(ip, m, u, b, c) + 1 < |s| && At(ip, m, c, Turn(mid, b), u) + 1 < |was|
    ensures At(ip, m, u, b, c) + 1 < |was|
    ensures Cell(s, At(ip, m, u, b, c))
         == if Done(k, j, u, c) then Cell(was, At(ip, m, c, Turn(mid, b), u)) else Cell(was, At(ip, m, u, b, c))
  {
    hide Spread, Cell, At, Done, Turn;
    SpreadMid(ip, m, mid, n);
    TurnTwice(mid, b);
    AtFits(ip, m, mid, n, u, b, c);
    AtFits(ip, m, mid, n, c, Turn(mid, b), u);
  }

  lemma ProgressIs<T>(s: seq<T>, was: seq<T>, ip: seq<nat>, m: nat, mid: nat, n: nat, k: nat, j: nat)
    requires Spread(ip, m, mid, n) && n <= |s| == |was|
    requires forall u: nat, b: nat, c: nat :: Place(m, mid, u, b, c) ==>
      u < |ip| && c < |ip| && At(ip, m, u, b, c) + 1 < |s| && At(ip, m, c, Turn(mid, b), u) + 1 < |was|
      && Cell(s, At(ip, m, u, b, c))
         == if Done(k, j, u, c) then Cell(was, At(ip, m, c, Turn(mid, b), u)) else Cell(was, At(ip, m, u, b, c))
    ensures Progress(s, was, ip, m, mid, n, k, j)
  {
    hide Spread, Cell, At, Done, Turn;
  }

  lemma ProgressParts<T>(s: seq<T>, was: seq<T>, ip: seq<nat>, m: nat, mid: nat, n: nat, k: nat, j: nat)
    requires Progress(s, was, ip, m, mid, n, k, j)
    ensures Spread(ip, m, mid, n) && n <= |s| == |was|
  {}

  lemma ProgressBegin<T>(s: seq<T>, ip: seq<nat>, m: nat, mid: nat, n: nat)
    requires Spread(ip, m, mid, n) && n <= |s| && m >= 1
    ensures Progress(s, s, ip, m, mid, n, 0, 0) && (mid == 2 ==> Progress(s, s, ip, m, mid, n, 1, 0))
  {
    hide Spread, Cell, At, Place, Progress;
    forall u: nat, b: nat, c: nat | Place(m, mid, u, b, c)
      ensures u < |ip| && c < |ip| && At(ip, m, u, b, c) + 1 < |s| && At(ip, m, c, Turn(mid, b), u) + 1 < |s|
      ensures Done(1, 0, u, c) ==> u == c
    {
      Fits(ip, m, mid, n, u, b, c);
    }
    ProgressIs(s, s, ip, m, mid, n, 0, 0);
    if mid == 2 { ProgressIs(s, s, ip, m, mid, n, 1, 0); }
  }

  lemma Fits(ip: seq<nat>, m: nat, mid: nat, n: nat, u: nat, b: nat, c: nat)
    requires Spread(ip, m, mid, n) && Place(m, mid, u, b, c)
    ensures u < |ip| && c < |ip| && At(ip, m, u, b, c) + 1 < n && At(ip, m, c, Turn(mid, b), u) + 1 < n
    ensures Place(m, mid, c, Turn(mid, b), u)
  {
    hide Spread, At, Turn;
    SpreadMid(ip, m, mid, n);
    TurnTwice(mid, b);
    AtFits(ip, m, mid, n, u, b, c);
    AtFits(ip, m, mid, n, c, Turn(mid, b), u);
  }

  /** Crossing row `k` with row `j`. */
  lemma ProgressPair<T>(s: seq<T>, was: seq<T>, ip: seq<nat>, m: nat, mid: nat, n: nat, k: nat, j: nat)
    requires Progress(s, was, ip, m, mid, n, k, j) && j < k < m
    ensures Spread(ip, m, mid, n) && n <= |s|
    ensures Progress(Crossed(s, ip, m, mid, n, k, j, mid), was, ip, m, mid, n, k, j + 1)
  {
    hide Spread, Cell, At, Progress, Crossed, Turn;
    ProgressParts(s, was, ip, m, mid, n, k, j);
    SpreadMid(ip, m, mid, n);
    var r := Crossed(s, ip, m, mid, n, k, j, mid);
    forall u: nat, b: nat, c: nat | Place(m, mid, u, b, c)
      ensures u < |ip| && c < |ip| && At(ip, m, u, b, c) + 1 < |r| && At(ip, m, c, Turn(mid, b), u) + 1 < |was|
      ensures Cell(r, At(ip, m, u, b, c))
           == if Done(k, j + 1, u, c) then Cell(was, At(ip, m, c, Turn(mid, b), u)) else Cell(was, At(ip, m, u, b, c))
    {
      Fits(ip, m, mid, n, u, b, c);
      TurnTwice(mid, b);
      CrossedCell(s, ip, m, mid, n, k, j, mid, u, b, c);
      ProgressAt(s, was, ip, m, mid, n, k, j, u, b, c);
      ProgressAt(s, was, ip, m, mid, n, k, j, c, Turn(mid, b), u);
    }
    ProgressIs(r, was, ip, m, mid, n, k, j + 1);
  }

  /** Row `k` with itself: with two middle bits one exchange is left, with one none. */
  lemma ProgressDiagonal<T>(s: seq<T>, was: seq<T>, ip: seq<nat>, m: nat, mid: nat, n: nat, k: nat)
    requires Progress(s, was, ip, m, mid, n, k, k) && k < m
    ensures Spread(ip, m, mid, n) && n <= |s| && (mid == 2 || mid == 4)
    ensures mid == 2 ==> Progress(s, was, ip, m, mid, n, k + 1, 0)
    ensures mid == 4 ==> (At(ip, m, k, 1, k) + 1 < |s| && At(ip, m, k, 2, k) + 1 < |s|
      && Progress(Exchange(s, At(ip, m, k, 1, k), At(ip, m, k, 2, k)), was, ip, m, mid, n, k + 1, 0))
  {
    hide Spread, Cell, At, Progress, Exchange;
    ProgressParts(s, was, ip, m, mid, n, k, k);
    SpreadMid(ip, m, mid, n);
    var r := s;
    if mid == 4 {
      AtFits(ip, m, mid, n, k, 1, k);
      AtFits(ip, m, mid, n, k, 2, k);
      r := Exchange(s, At(ip, m, k, 1, k), At(ip, m, k, 2, k));
    }
    forall u: nat, b: nat, c: nat | Place(m, mid, u, b, c)
      ensures u < |ip| && c < |ip| && At(ip, m, u, b, c) + 1 < |r| && At(ip, m, c, Turn(mid, b), u) + 1 < |was|
      ensures Cell(r, At(ip, m, u, b, c))
           == if Done(k + 1, 0, u, c) then Cell(was, At(ip, m, c, Turn(mid, b), u)) else Cell(was, At(ip, m, u, b, c))
    {
      Fits(ip, m, mid, n, u, b, c);
      ProgressAt(s, was, ip, m, mid, n, k, k, u, b, c);
      if mid == 4 { DiagonalCell(s, was, ip, m, n, k, u, b, c); }
    }
    ProgressIs(r, was, ip, m, mid, n, k + 1, 0);
  }

  lemma DiagonalCell<T>(s: seq<T>, was: seq<T>, ip: seq<nat>, m: nat, n: nat, k: nat, u: nat, b: nat, c: nat)
    requires Progress(s, was, ip, m, 4, n, k, k) && k < m && Place(m, 4, u, b, c)
    ensures n <= |s| == |was| && k < |ip| && u < |ip| && c < |ip|
    ensures At(ip, m, k, 1, k) + 1 < n && At(ip, m, k, 2, k) + 1 < n && At(ip, m, u, b, c) + 1 < n
    ensures At(ip, m, c, Turn(4, b), u) + 1 < n
    ensures Cell(Exchange(s, At(ip, m, k, 1, k), At(ip, m, k, 2, k)), At(ip, m, u, b, c))
         == if Done(k + 1, 0, u, c) then Cell(was, At(ip, m, c, Turn(4, b), u)) else Cell(was, At(ip, m, u, b, c))
  {
    hide Spread, Cell, At, Progress, Exchange, Even;
    ProgressParts(s, was, ip, m, 4, n, k, k);
    Fits(ip, m, 4, n, u, b, c);
    AtFits(ip, m, 4, n, u, b, c);
    AtFits(ip, m, 4, n, k, 1, k);
    AtFits(ip, m, 4, n, k, 2, k);
    SpreadMid(ip, m, 4, n);
    AtDistinct(ip, m, 4, n, k, 1, k, k, 2, k);
    if (u, b, c) != (k, 1, k) { AtDistinct(ip, m, 4, n, u, b, c, k, 1, k); }
    if (u, b, c) != (k, 2, k) { AtDistinct(ip, m, 4, n, u, b, c, k, 2, k); }
    ExchangeCell(s, At(ip, m, k, 1, k), At(ip, m, k, 2, k), At(ip, m, u, b, c));
    ProgressAt(s, was, ip, m, 4, n, k, k, u, b, c);
    ProgressAt(s, was, ip, m, 4, n, k, k, k, 1, k);
    ProgressAt(s, was, ip, m, 4, n, k, k, k, 2, k);
  }

  // ----- rows and columns of the reversed index -----

  /** Rows of the finished table are spread. */
  lemma OffsetsSpread(ip: seq<nat>, t: nat, w: nat)
    requires 1 <= w <= 2 && Offsets(ip, t, 2 * t + w + 1)
    ensures Spread(ip, Pow2(t), Pow2(w), Pow2(2 * t + w + 1))
  {
    hide Shl, BitRev, Spread, Even, Off;
    var m, p, mid := Pow2(t), 2 * t + w + 1, Pow2(w);
    var l := Pow2(p - t);
    MidIs(w);
    RowSize(t, w);
    forall u | 0 <= u < m ensures Even(ip[u]) && ip[u] + l <= Pow2(p) {
      BitRevBound(u, t);
      RowAt(BitRev(u, t), t, p - t);
    }
    forall u, v | 0 <= u < v < m ensures ip[u] + l <= ip[v] || ip[v] + l <= ip[u] {
      if BitRev(u, t) == BitRev(v, t) {
        BitRevTwice(u, t);
        BitRevTwice(v, t);
      }
      RowsApart(BitRev(u, t), BitRev(v, t), p - t);
    }
    assert m <= |ip|;
    SpreadIs(ip, m, mid, Pow2(p), l);
  }

  lemma SpreadIs(ip: seq<nat>, m: nat, mid: nat, n: nat, l: nat)
    requires (mid == 2 || mid == 4) && m <= |ip| && l == Off(m, mid - 1) + 2 * m
    requires forall u :: 0 <= u < m ==> Even(ip[u]) && ip[u] + l <= n
    requires forall u, v :: 0 <= u < v < m ==> ip[u] + l <= ip[v] || ip[v] + l <= ip[u]
    ensures Spread(ip, m, mid, n)
  {}

  lemma MidIs(w: nat)
    requires 1 <= w <= 2
    ensures Pow2(w) == if w == 1 then 2 else 4
  {}

  lemma RowSize(t: nat, w: nat)
    requires 1 <= w <= 2
    ensures Pow2(t + w + 1) == Off(Pow2(t), Pow2(w) - 1) + 2 * Pow2(t)
  {
    MidIs(w);
    assert Pow2(t + w + 1) == 2 * Pow2(t + w) && Pow2(t + w) == 2 * Pow2(t + w - 1);
  }

  lemma RowAt(r: nat, t: nat, s: nat)
    requires r < Pow2(t) && s >= 1
    ensures Even(Shl(r, s)) && Shl(r, s) + Pow2(s) <= Pow2(t + s)
  {
    hide *;
    ShlPlus(r, 1, s);
    ShlPow2(s);
    ShlMono(r + 1, Pow2(t), s);
    ShlPow2(t);
    ShlPow2(t + s);
    ShlShl(1, t, s);
    ShlShl(r, s - 1, 1);
    ShlTwice(Shl(r, s - 1));
    TwiceEven(Shl(r, s - 1));
  }

  lemma RowsApart(q: nat, r: nat, s: nat)
    requires q != r
    ensures Shl(q, s) + Pow2(s) <= Shl(r, s) || Shl(r, s) + Pow2(s) <= Shl(q, s)
  {
    hide *;
    ShlPlus(q, 1, s);
    ShlPlus(r, 1, s);
    ShlPow2(s);
    if q < r { ShlMono(q + 1, r, s); } else { ShlMono(r + 1, q, s); }
  }

  lemma TurnIs(b: Bits)
    requires 1 <= |b| <= 2
    ensures Val(b) < Pow2(|b|) && Turn(Pow2(|b|), Val(b)) == Val(Reverse(b))
  {
    hide *;
    MidIs(|b|);
    ValBound(b);
    if |b| == 1 {
      assert b == [b[0]];
      ReverseOne(b[0]);
      ValOne(b[0]);
      TurnBits(b[0], b[0]);
    } else {
      assert b == [b[0]] + [b[1]];
      ReverseOne(b[0]);
      ReverseOne(b[1]);
      ReverseConcat([b[0]], [b[1]]);
      ValTwo(b[0], b[1]);
      ValTwo(b[1], b[0]);
      TurnBits(b[0], b[1]);
    }
  }

  lemma ValTwo(x: bool, y: bool)
    ensures Val([x] + [y]) == 2 * Bit(x) + Bit(y)
  {
    hide *;
    ValConcat([x], [y]);
    ValOne(x);
    ValOne(y);
    ShlTwice(Bit(x));
  }

  lemma TurnBits(x: bool, y: bool)
    ensures Turn(4, 2 * Bit(x) + Bit(y)) == 2 * Bit(y) + Bit(x) && Turn(2, Bit(x)) == Bit(x)
  {}

  lemma OffIs(t: nat, w: nat, b: nat)
    requires 1 <= w <= 2 && b < Pow2(w)
    ensures Off(Pow2(t), b) == 2 * Shl(b, t)
  {
    hide Shl, Pow2;
    MidIs(w);
    ShlPow2(t);
    ShlNone(t);
    ShlPlus(1, 1, t);
    ShlPlus(2, 1, t);
  }

  lemma RowSum(h: nat, b: nat, c: nat, t: nat, w: nat)
    requires 1 <= w <= 2 && b < Pow2(w)
    ensures 2 * (c + Shl(b, t) + Shl(h, w + t)) == Shl(h, t + w + 1) + Off(Pow2(t), b) + 2 * c
  {
    hide *;
    ShlShl(h, w + t, 1);
    ShlTwice(Shl(h, w + t));
    OffIs(t, w, b);
  }

  lemma ValThree(hi: Bits, mid: Bits, lo: Bits, t: nat, w: nat)
    requires |mid| == w && |lo| == t
    ensures Val(hi + (mid + lo)) == Val(lo) + Shl(Val(mid), t) + Shl(Val(hi), w + t)
  {
    hide *;
    ValConcat(mid, lo);
    ValConcat(hi, mid + lo);
  }

  lemma RowOf(ip: seq<nat>, t: nat, w: nat, hi: Bits)
    requires Offsets(ip, t, 2 * t + w + 1) && |hi| == t
    ensures Val(Reverse(hi)) < Pow2(t) <= |ip| && ip[Val(Reverse(hi))] == Shl(Val(hi), t + w + 1)
  {
    hide *;
    var u := Val(Reverse(hi));
    ValBound(Reverse(hi));
    OffsetAt(ip, t, 2 * t + w + 1, u);
    BitRevIs(u, t);
    EncVal(Reverse(hi));
    ReverseTwice(hi);
  }

  /** An index made of three fields stands at the row of its reversed high field. */
  lemma FieldsAt(ip: seq<nat>, t: nat, w: nat, hi: Bits, mid: Bits, lo: Bits)
    requires 1 <= w <= 2 && Offsets(ip, t, 2 * t + w + 1) && |hi| == t && |mid| == w && |lo| == t
    ensures Val(Reverse(hi)) < Pow2(t) <= |ip| && Val(mid) < Pow2(w)
    ensures 2 * Val(hi + (mid + lo)) == At(ip, Pow2(t), Val(Reverse(hi)), Val(mid), Val(lo))
  {
    hide *;
    ValBound(mid);
    RowOf(ip, t, w, hi);
    ValThree(hi, mid, lo, t, w);
    RowSum(Val(hi), Val(mid), Val(lo), t, w);
    AtIs(ip, Pow2(t), Val(Reverse(hi)), Val(mid), Val(lo));
  }

  lemma AtIs(ip: seq<nat>, m: nat, u: nat, b: nat, c: nat)
    requires u < |ip|
    ensures At(ip, m, u, b, c) == ip[u] + Off(m, b) + 2 * c
  {}

  lemma OffsetAt(ip: seq<nat>, t: nat, p: nat, u: nat)
    requires t <= p && Offsets(ip, t, p) && u < Pow2(t)
    ensures Pow2(t) <= |ip| && ip[u] == Shl(BitRev(u, t), p - t)
  {}

  lemma BitRevIs(x: nat, n: nat)
    ensures BitRev(x, n) == Val(Reverse(Enc(x, n)))
  {}

  lemma ValBound(b: Bits)
    ensures Val(b) < Pow2(|b|)
  {}

  /** Every index and its mirror image are the two places of one exchange. */
  lemma Locate(ip: seq<nat>, t: nat, w: nat, x: nat) returns (u: nat, b: nat, c: nat)
    requires 1 <= w <= 2 && Offsets(ip, t, 2 * t + w + 1) && x < Pow2(2 * t + w)
    ensures Place(Pow2(t), Pow2(w), u, b, c) && u < |ip| && c < |ip|
    ensures At(ip, Pow2(t), u, b, c) == 2 * x
    ensures At(ip, Pow2(t), c, Turn(Pow2(w), b), u) == 2 * BitRev(x, 2 * t + w)
  {
    hide *;
    var q := 2 * t + w;
    var e := Enc(x, q);
    var hi, mid, lo := e[..t], e[t..t + w], e[t + w..];
    assert e == hi + (mid + lo);
    u, b, c := Val(Reverse(hi)), Val(mid), Val(lo);
    FieldsAt(ip, t, w, hi, mid, lo);
    ValEnc(x, q);
    LowId(x, q);
    BitRevIs(x, q);
    ReverseConcat(hi, mid + lo);
    ReverseConcat(mid, lo);
    Assoc(Reverse(lo), Reverse(mid), Reverse(hi));
    ReverseTwice(lo);
    FieldsAt(ip, t, w, Reverse(lo), Reverse(mid), Reverse(hi));
    TurnIs(mid);
    ValBound(lo);
    PlaceIs(Pow2(t), Pow2(w), u, b, c);
  }

  lemma PlaceIs(m: nat, mid: nat, u: nat, b: nat, c: nat)
    requires u < m && b < mid && c < m
    ensures Place(m, mid, u, b, c)
  {}

  /** The cells are permuted by bit reversal. */
  ghost predicate Permuted<T>(s: seq<T>, was: seq<T>, q: nat) {
    Pow2(q + 1) == |s| == |was| && forall x :: 0 <= x < Pow2(q) ==> Cell(s, 2 * x) == Cell(was, 2 * BitRev(x, q))
  }

  lemma AllDone<T>(s: seq<T>, was: seq<T>, ip: seq<nat>, t: nat, w: nat)
    requires 1 <= w <= 2 && Offsets(ip, t, 2 * t + w + 1) && |s| == |was| == Pow2(2 * t + w + 1)
    requires Progress(s, was, ip, Pow2(t), Pow2(w), Pow2(2 * t + w + 1), Pow2(t), 0)
    ensures Permuted(s, was, 2 * t + w)
  {
    hide Progress, Offsets, BitRev, At, Cell, Pow2, Turn, Spread;
    var q := 2 * t + w;
    PowNext(q);
    forall x | 0 <= x < Pow2(q) ensures 2 * BitRev(x, q) + 1 < |was| && Cell(s, 2 * x) == Cell(was, 2 * BitRev(x, q)) {
      BitRevBound(x, q);
      var u, b, c := Locate(ip, t, w, x);
      ProgressAt(s, was, ip, Pow2(t), Pow2(w), Pow2(q + 1), Pow2(t), 0, u, b, c);
    }
  }

  lemma PowNext(q: nat)
    ensures Pow2(q + 1) == 2 * Pow2(q)
  {}

  /** Doing it twice restores the order. */
  lemma PermutedTwice<T>(a: seq<T>, b: seq<T>, c: seq<T>, q: nat)
    requires Permuted(b, a, q) && Permuted(c, b, q)
    ensures c == a
  {
    hide BitRev;
    PowNext(q);
    forall x | 0 <= x < Pow2(q) ensures c[2 * x] == a[2 * x] && c[2 * x + 1] == a[2 * x + 1] {
      BitRevTwice(x, q);
      BitRevBound(x, q);
      assert Cell(c, 2 * x) == Cell(b, 2 * BitRev(x, q));
      assert Cell(b, 2 * BitRev(x, q)) == Cell(a, 2 * BitRev(BitRev(x, q), q));
    }
    forall z | 0 <= z < |c| ensures c[z] == a[z] {
      assert z == 2 * (z / 2) || z == 2 * (z / 2) + 1;
      assert c[2 * (z / 2)] == a[2 * (z / 2)];
    }
  }

  // ----- in place -----

  lemma Pow2Less(a: nat, b: nat)
    ensures Pow2(a) < Pow2(b) <==> a < b
  {
    hide Pow2;
    if a < b {
      Pow2Mono(a + 1, b);
      PowNext(a);
    } else {
      Pow2Mono(b, a);
    }
  }

  lemma Times8(t: nat)
    ensures Pow2(t + 3) == 8 * Pow2(t)
  {
    PowNext(t);
    PowNext(t + 1);
    PowNext(t + 2);
  }

  method DoubleRows(ip: array<nat>, m: nat, l: nat)
    requires 2 * m <= ip.Length
    modifies ip
    ensures forall i :: 0 <= i < m ==> ip[i] == old(ip[i]) && ip[i + m] == old(ip[i]) + l
  {
    var j := 0;
    while j < m
      invariant 0 <= j <= m
      invariant forall i :: 0 <= i < m ==> ip[i] == old(ip[i])
      invariant forall i :: 0 <= i < j ==> ip[i + m] == old(ip[i]) + l
    {
      ip[m + j] := ip[j] + l;
      j := j + 1;
    }
  }

  /** The offset table is doubled until a row of it, squared, is long enough. */
  method RowOffsets(n: nat, ghost p: nat, ip: array<nat>) returns (l: nat, m: nat, ghost t: nat, ghost w: nat)
    requires n == Pow2(p) && p >= 2 && ip.Length >= Pow2((p - 2) / 2)
    modifies ip
    ensures 1 <= w <= 2 && p == 2 * t + w + 1 && m == Pow2(t) && l == Pow2(p - t) && Offsets(ip[..], t, p)
  {
    hide *;
    ip[0] := 0;
    l, m, t := n, 1, 0;
    OffsetsBegin(ip[..], p);
    PowOne();
    Times8(0);
    Pow2Less(t + 3, p - t);
    while m * 8 < l
      invariant 2 * t + 2 <= p && m == Pow2(t) && l == Pow2(p - t) && Offsets(ip[..], t, p)
      invariant m * 8 == Pow2(t + 3) && (m * 8 < l <==> t + 3 < p - t)
      decreases p - t
    {
      PowNext(p - t - 1);
      PowNext(t);
      Pow2Mono(t + 1, (p - 2) / 2);
      l := l / 2;
      ghost var was := ip[..];
      DoubleRows(ip, m, l);
      OffsetsNext(was, ip[..], t, p);
      m, t := 2 * m, t + 1;
      Times8(t);
      Pow2Less(t + 3, p - t);
    }
    w := p - 2 * t - 1;
  }

  lemma PowOne()
    ensures Pow2(0) == 1
  {}

  lemma CrossedNext<T>(s: seq<T>, ip: seq<nat>, m: nat, mid: nat, n: nat, k: nat, j: nat, b: nat)
    requires Spread(ip, m, mid, n) && j < m && k < m && j != k && n <= |s| && b < mid
    ensures Place(m, mid, k, b, j) && Place(m, mid, j, Turn(mid, b), k) && k < |ip| && j < |ip|
    ensures var x, y := At(ip, m, k, b, j), At(ip, m, j, Turn(mid, b), k);
            && x + 1 < n && y + 1 < n && Even(x) && Even(y) && x != y
            && Crossed(s, ip, m, mid, n, k, j, b + 1) == Exchange(Crossed(s, ip, m, mid, n, k, j, b), x, y)
  {
    hide Spread, Even, At, Exchange;
    SpreadMid(ip, m, mid, n);
    TurnTwice(mid, b);
    AtFits(ip, m, mid, n, k, b, j);
    AtFits(ip, m, mid, n, j, Turn(mid, b), k);
    AtDistinct(ip, m, mid, n, k, b, j, j, Turn(mid, b), k);
  }

  lemma CrossedNone<T>(s: seq<T>, ip: seq<nat>, m: nat, mid: nat, n: nat, k: nat, j: nat)
    requires Spread(ip, m, mid, n) && j < m && k < m && n <= |s|
    ensures Crossed(s, ip, m, mid, n, k, j, 0) == s
  {}

  lemma Offs(m: nat)
    ensures Off(m, 0) == 0 && Off(m, 1) == 2 * m && Off(m, 2) == 4 * m && Off(m, 3) == 6 * m
    ensures Turn(4, 0) == 0 && Turn(4, 1) == 2 && Turn(4, 2) == 1 && Turn(4, 3) == 3
    ensures Turn(2, 0) == 0 && Turn(2, 1) == 1
  {}

  /** One exchange of two rows, at running addresses. */
  method Step<T>(a: array<T>, x: nat, y: nat, ghost was: seq<T>, ghost ip: seq<nat>, ghost m: nat, ghost mid: nat,
                 ghost n: nat, ghost k: nat, ghost j: nat, ghost b: nat)
    requires Spread(ip, m, mid, n) && j < m && k < m && j != k && n <= |was| && b < mid && k < |ip| && j < |ip|
    requires a[..] == Crossed(was, ip, m, mid, n, k, j, b)
    requires x == At(ip, m, k, b, j) && y == At(ip, m, j, Turn(mid, b), k)
    modifies a
    ensures a[..] == Crossed(was, ip, m, mid, n, k, j, b + 1)
  {
    hide *;
    CrossedNext(was, ip, m, mid, n, k, j, b);
    Swap(a, x, y);
  }

  method CrossFour<T>(a: array<T>, ip: seq<nat>, m: nat, ghost n: nat, k: nat, j: nat)
    requires Spread(ip, m, 4, n) && j < m && k < m && j != k && n <= a.Length
    modifies a
    ensures a[..] == Crossed(old(a[..]), ip, m, 4, n, k, j, 4)
  {
    hide *;
    SpreadMid(ip, m, 4, n);
    ghost var was := a[..];
    CrossedNone(was, ip, m, 4, n, k, j);
    Offs(m);
    var m2 := 2 * m;
    var j1, k1: int := 2 * j + ip[k], 2 * k + ip[j];
    forall b: nat | b < 4
      ensures At(ip, m, k, b, j) == ip[k] + Off(m, b) + 2 * j
      ensures At(ip, m, j, Turn(4, b), k) == ip[j] + Off(m, Turn(4, b)) + 2 * k
    {
      AtIs(ip, m, k, b, j);
      AtIs(ip, m, j, Turn(4, b), k);
    }
    Step(a, j1, k1, was, ip, m, 4, n, k, j, 0);
    j1, k1 := j1 + m2, k1 + 2 * m2;
    Step(a, j1, k1, was, ip, m, 4, n, k, j, 1);
    j1, k1 := j1 + m2, k1 - m2;
    Step(a, j1, k1, was, ip, m, 4, n, k, j, 2);
    j1, k1 := j1 + m2, k1 + 2 * m2;
    Step(a, j1, k1, was, ip, m, 4, n, k, j, 3);
  }

  method CrossTwo<T>(a: array<T>, ip: seq<nat>, m: nat, ghost n: nat, k: nat, j: nat)
    requires Spread(ip, m, 2, n) && j < m && k < m && j != k && n <= a.Length
    modifies a
    ensures a[..] == Crossed(old(a[..]), ip, m, 2, n, k, j, 2)
  {
    hide *;
    SpreadMid(ip, m, 2, n);
    ghost var was := a[..];
    CrossedNone(was, ip, m, 2, n, k, j);
    Offs(m);
    var m2 := 2 * m;
    var j1, k1 := 2 * j + ip[k], 2 * k + ip[j];
    AtIs(ip, m, k, 0, j);
    AtIs(ip, m, j, 0, k);
    AtIs(ip, m, k, 1, j);
    AtIs(ip, m, j, 1, k);
    Step(a, j1, k1, was, ip, m, 2, n, k, j, 0);
    j1, k1 := j1 + m2, k1 + m2;
    Step(a, j1, k1, was, ip, m, 2, n, k, j, 1);
  }

  method CrossSelf<T>(a: array<T>, ip: seq<nat>, m: nat, ghost n: nat, k: nat, ghost was: seq<T>)
    requires Progress(a[..], was, ip, m, 4, n, k, k) && k < m
    modifies a
    ensures Progress(a[..], was, ip, m, 4, n, k + 1, 0)
  {
    hide *;
    ProgressParts(a[..], was, ip, m, 4, n, k, k);
    ProgressDiagonal(a[..], was, ip, m, 4, n, k);
    SpreadMid(ip, m, 4, n);
    PlaceIs(m, 4, k, 1, k);
    PlaceIs(m, 4, k, 2, k);
    AtFits(ip, m, 4, n, k, 1, k);
    AtFits(ip, m, 4, n, k, 2, k);
    AtDistinct(ip, m, 4, n, k, 1, k, k, 2, k);
    AtIs(ip, m, k, 1, k);
    AtIs(ip, m, k, 2, k);
    Offs(m);
    var m2 := 2 * m;
    var j1 := 2 * k + m2 + ip[k];
    Swap(a, j1, j1 + m2);
  }

  /** All of it: the cells end up at their bit-reversed index. */
  method Bitrv2<T>(n: nat, ghost p: nat, ip: array<nat>, a: array<T>)
    requires n == a.Length == Pow2(p) && p >= 2 && ip.Length >= Pow2((p - 2) / 2) && (ip as object) != (a as object)
    modifies ip, a
    ensures Permuted(a[..], old(a[..]), p - 1)
  {
    hide *;
    ghost var was := a[..];
    var l, m;
    ghost var t, w;
    l, m, t, w := RowOffsets(n, p, ip);
    var rows := ip[..];
    OffsetsSpread(rows, t, w);
    MidIs(w);
    Times8(t);
    Pow2Less(t + 3, p - t);
    Pow2Less(p - t, t + 3);
    ProgressBegin(was, rows, m, Pow2(w), n);
    if m * 8 == l {
      var k := 0;
      while k < m
        invariant 0 <= k <= m && rows == ip[..] && Progress(a[..], was, rows, m, 4, n, k, 0)
      {
        var j := 0;
        while j < k
          invariant 0 <= j <= k && rows == ip[..] && Progress(a[..], was, rows, m, 4, n, k, j)
        {
          ProgressPair(a[..], was, rows, m, 4, n, k, j);
          CrossFour(a, rows, m, n, k, j);
          j := j + 1;
        }
        CrossSelf(a, rows, m, n, k, was);
        k := k + 1;
      }
    } else {
      var k := 1;
      while k < m
        invariant 1 <= k <= m && rows == ip[..] && Progress(a[..], was, rows, m, 2, n, k, 0)
      {
        var j := 0;
        while j < k
          invariant 0 <= j <= k && rows == ip[..] && Progress(a[..], was, rows, m, 2, n, k, j)
        {
          ProgressPair(a[..], was, rows, m, 2, n, k, j);
          CrossTwo(a, rows, m, n, k, j);
          j := j + 1;
        }
        ProgressDiagonal(a[..], was, rows, m, 2, n, k);
        k := k + 1;
      }
    }
    AllDone(a[..], was, rows, t, w);
  }
}
