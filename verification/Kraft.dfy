/** Word lengths of prefix codes: Kraft's inequality, and why joining the two lightest symbols loses nothing. */
module Kraft {
  import opened BitStrings

  // ----- sums -----

  function Sum(xs: seq<nat>): nat { if xs == [] then 0 else Sum(xs[..|xs| - 1]) + xs[|xs| - 1] }

  lemma {:induction false} SumConcat(a: seq<nat>, b: seq<nat>)
    ensures Sum(a + b) == Sum(a) + Sum(b)
    decreases |b|
  {
    if b == [] {
      assert a + b == a;
    } else {
      SumConcat(a, b[..|b| - 1]);
      assert (a + b)[..|a + b| - 1] == a + b[..|b| - 1];
    }
  }

  lemma SumOne(x: nat)
    ensures Sum([x]) == x
  {
    assert [x][..0] == [];
  }

  lemma Around<T>(xs: seq<T>, i: nat)
    requires i < |xs|
    ensures xs == xs[..i] + ([xs[i]] + xs[i + 1..])
  {}

  lemma SumUpdate(xs: seq<nat>, i: nat, v: nat)
    requires i < |xs|
    ensures Sum(xs[i := v]) + xs[i] == Sum(xs) + v
  {
    hide Sum;
    var a, c := xs[..i], xs[i + 1..];
    Around(xs, i);
    Around(xs[i := v], i);
    assert xs[i := v][..i] == a && xs[i := v][i + 1..] == c;
    SumConcat(a, [xs[i]] + c);
    SumConcat([xs[i]], c);
    SumConcat(a, [v] + c);
    SumConcat([v], c);
    SumOne(xs[i]);
    SumOne(v);
  }

  /** Leaving out two entries. */
  function Without<T>(s: seq<T>, i: nat, j: nat): (r: seq<T>)
    requires i < j < |s|
    ensures |r| == |s| - 2
  {
    s[..i] + (s[i + 1..j] + s[j + 1..])
  }

  lemma Cut5<T>(s: seq<T>, i: nat, j: nat)
    requires i < j < |s|
    ensures s == s[..i] + ([s[i]] + (s[i + 1..j] + ([s[j]] + s[j + 1..])))
  {}

  lemma SumWithout(s: seq<nat>, i: nat, j: nat)
    requires i < j < |s|
    ensures Sum(s) == Sum(Without(s, i, j)) + s[i] + s[j]
  {
    hide Sum;
    var a, b, c := s[..i], s[i + 1..j], s[j + 1..];
    Cut5(s, i, j);
    SumConcat(a, [s[i]] + (b + ([s[j]] + c)));
    SumConcat([s[i]], b + ([s[j]] + c));
    SumConcat(b, [s[j]] + c);
    SumConcat([s[j]], c);
    SumOne(s[i]);
    SumOne(s[j]);
    SumConcat(a, b + c);
    SumConcat(b, c);
  }

  lemma {:induction false} SumTwice(a: seq<nat>, b: seq<nat>)
    requires |a| == |b| && forall i :: 0 <= i < |a| ==> b[i] == 2 * a[i]
    ensures Sum(b) == 2 * Sum(a)
  {
    if a != [] { SumTwice(a[..|a| - 1], b[..|b| - 1]); }
  }

  predicate Even(n: nat) { n % 2 == 0 }

  lemma EvenPlus(a: nat, b: nat)
    ensures Even(0) && (Even(a) && Even(b) ==> Even(a + b))
  {}

  lemma {:induction false} SumEven(a: seq<nat>)
    requires forall i :: 0 <= i < |a| ==> Even(a[i])
    ensures Even(Sum(a))
  {
    hide Even;
    EvenPlus(0, 0);
    if a != [] {
      SumEven(a[..|a| - 1]);
      EvenPlus(Sum(a[..|a| - 1]), a[|a| - 1]);
    }
  }

  lemma NextEven(x: nat, y: nat)
    requires Even(x) && Even(y) && x + 1 <= y
    ensures x + 2 <= y
  {}

  // ----- shares of the code space -----

  /** The words of length `max` that begin with a word of each length. */
  function Shares(ds: seq<nat>, max: nat): (s: seq<nat>)
    ensures |s| == |ds|
  {
    if ds == [] then [] else Shares(ds[..|ds| - 1], max) + [Share(ds[|ds| - 1], max)]
  }

  function Share(d: nat, max: nat): nat { if d <= max then Pow2(max - d) else 0 }

  lemma {:induction false} ShareAt(ds: seq<nat>, max: nat, i: nat)
    requires i < |ds|
    ensures Shares(ds, max)[i] == Share(ds[i], max)
  {
    hide Share;
    if i < |ds| - 1 { ShareAt(ds[..|ds| - 1], max, i); }
  }

  lemma SharesUpdate(ds: seq<nat>, max: nat, i: nat, v: nat)
    requires i < |ds|
    ensures Shares(ds[i := v], max) == Shares(ds, max)[i := Share(v, max)]
  {
    hide Shares, Share;
    var a, b := Shares(ds[i := v], max), Shares(ds, max)[i := Share(v, max)];
    forall k | 0 <= k < |ds| ensures a[k] == b[k] {
      ShareAt(ds[i := v], max, k);
      ShareAt(ds, max, k);
    }
  }

  function Weight(ds: seq<nat>, max: nat): nat { Sum(Shares(ds, max)) }

  ghost predicate Bounded(ds: seq<nat>, max: nat) { forall i :: 0 <= i < |ds| ==> ds[i] <= max }

  /** Kraft's inequality. */
  ghost predicate KraftOk(ds: seq<nat>, max: nat) { Bounded(ds, max) && Weight(ds, max) <= Pow2(max) }

  lemma ShareTwice(d: nat, max: nat)
    requires d <= max
    ensures Share(d, max + 1) == 2 * Share(d, max)
  {}

  lemma {:induction false} WeightScale(ds: seq<nat>, max: nat, k: nat)
    requires Bounded(ds, max)
    ensures Weight(ds, max + k) == Shl(Weight(ds, max), k)
    decreases k
  {
    if k > 0 {
      hide Sum, Shares, Share;
      WeightScale(ds, max, k - 1);
      var a, b := Shares(ds, max + k - 1), Shares(ds, max + k);
      forall i | 0 <= i < |ds| ensures b[i] == 2 * a[i] {
        ShareAt(ds, max + k - 1, i);
        ShareAt(ds, max + k, i);
        ShareTwice(ds[i], max + k - 1);
      }
      SumTwice(a, b);
    }
  }

  lemma {:induction false} ShlMonoBack(a: nat, b: nat, n: nat)
    requires Shl(a, n) <= Shl(b, n)
    ensures a <= b
  {
    if n > 0 { ShlMonoBack(a, b, n - 1); }
  }

  /** The inequality does not depend on the length it is measured at. */
  lemma KraftAt(ds: seq<nat>, max: nat, m: nat)
    requires KraftOk(ds, max) && m <= max && Bounded(ds, m)
    ensures KraftOk(ds, m)
  {
    hide Weight, Shl, Pow2;
    WeightScale(ds, m, max - m);
    ShlPow2(max);
    ShlPow2(m);
    ShlShl(1, m, max - m);
    ShlMonoBack(Weight(ds, m), Pow2(m), max - m);
  }

  // ----- cost -----

  function Mul(a: nat, b: nat): nat { a * b }

  function Products(ws: seq<nat>, ds: seq<nat>): (p: seq<nat>)
    requires |ws| == |ds|
    ensures |p| == |ws|
  {
    if ws == [] then [] else Products(ws[..|ws| - 1], ds[..|ds| - 1]) + [Mul(ws[|ws| - 1], ds[|ds| - 1])]
  }

  lemma {:induction false} ProductAt(ws: seq<nat>, ds: seq<nat>, i: nat)
    requires |ws| == |ds| && i < |ws|
    ensures Products(ws, ds)[i] == Mul(ws[i], ds[i])
  {
    hide Mul;
    if i < |ws| - 1 { ProductAt(ws[..|ws| - 1], ds[..|ds| - 1], i); }
  }

  /** Bits spent on symbols that occur `ws` times and have words of lengths `ds`. */
  function Cost(ws: seq<nat>, ds: seq<nat>): nat
    requires |ws| == |ds|
  {
    Sum(Products(ws, ds))
  }

  lemma CostUpdate(ws: seq<nat>, ds: seq<nat>, i: nat, v: nat)
    requires |ws| == |ds| && i < |ws|
    ensures Cost(ws, ds[i := v]) + Mul(ws[i], ds[i]) == Cost(ws, ds) + Mul(ws[i], v)
  {
    hide Sum, Products, Mul;
    var p, q := Products(ws, ds), Products(ws, ds[i := v]);
    forall k | 0 <= k < |ws| ensures q[k] == p[i := Mul(ws[i], v)][k] {
      ProductAt(ws, ds, k);
      ProductAt(ws, ds[i := v], k);
    }
    assert q == p[i := Mul(ws[i], v)];
    ProductAt(ws, ds, i);
    SumUpdate(p, i, Mul(ws[i], v));
  }

  lemma WeightUpdate(ds: seq<nat>, max: nat, i: nat, v: nat)
    requires i < |ds|
    ensures Weight(ds[i := v], max) + Share(ds[i], max) == Weight(ds, max) + Share(v, max)
  {
    hide Sum, Shares, Share;
    SharesUpdate(ds, max, i, v);
    ShareAt(ds, max, i);
    SumUpdate(Shares(ds, max), i, Share(v, max));
  }

  lemma Rearrange(a: nat, b: nat, x: nat, y: nat)
    requires a <= b && x <= y
    ensures Mul(a, y) + Mul(b, x) <= Mul(a, x) + Mul(b, y)
  {
    var d, e := b - a, y - x;
    assert a * y == a * x + a * e;
    assert b * y == b * x + b * e;
    assert b * e == a * e + d * e;
  }

  function Swapped(ds: seq<nat>, a: nat, b: nat): (r: seq<nat>)
    requires a < |ds| && b < |ds|
    ensures |r| == |ds|
  {
    ds[a := ds[b]][b := ds[a]]
  }

  /** Giving the rarer symbol the longer word. */
  lemma SwapBetter(ws: seq<nat>, ds: seq<nat>, max: nat, a: nat, b: nat)
    requires |ws| == |ds| && a < |ws| && b < |ws| && a != b && ws[a] <= ws[b] && ds[a] <= ds[b] && KraftOk(ds, max)
    ensures KraftOk(Swapped(ds, a, b), max) && Cost(ws, Swapped(ds, a, b)) <= Cost(ws, ds)
  {
    hide Weight, Cost, Mul, Share;
    CostUpdate(ws, ds, a, ds[b]);
    CostUpdate(ws, ds[a := ds[b]], b, ds[a]);
    Rearrange(ws[a], ws[b], ds[a], ds[b]);
    WeightUpdate(ds, max, a, ds[b]);
    WeightUpdate(ds[a := ds[b]], max, b, ds[a]);
  }

  // ----- the greedy step -----

  /** No prefix code's lengths cost less than `c`. */
  ghost predicate Lower(ws: seq<nat>, c: nat)
  {
    forall ds, max :: |ds| == |ws| && KraftOk(ds, max) ==> Cost(ws, ds) >= c
  }

  /** Two symbols at least as rare as all the others. */
  ghost predicate Lightest(ws: seq<nat>, i: nat, j: nat)
  {
    i < j < |ws| && forall k :: 0 <= k < |ws| && k != i && k != j ==> ws[i] <= ws[k] && ws[j] <= ws[k]
  }

  function Joined(ws: seq<nat>, i: nat, j: nat): (r: seq<nat>)
    requires i < j < |ws|
    ensures |r| == |ws| - 1
  {
    Without(ws, i, j) + [ws[i] + ws[j]]
  }

  lemma {:induction false} Deepest(ds: seq<nat>) returns (p: nat)
    requires ds != []
    ensures p < |ds| && Bounded(ds, ds[p])
  {
    var n := |ds| - 1;
    if n == 0 {
      p := 0;
    } else {
      var q := Deepest(ds[..n]);
      p := if ds[..n][q] <= ds[n] then n else q;
      forall i | 0 <= i < |ds| ensures ds[i] <= ds[p] {
        if i < n { assert ds[..n][i] == ds[i]; }
      }
    }
  }

  /** A single deepest word can be shortened: the space it leaves is its own. */
  lemma Shorten(ds: seq<nat>, p: nat)
    requires p < |ds| && ds[p] >= 1 && KraftOk(ds, ds[p]) && forall i :: 0 <= i < |ds| && i != p ==> ds[i] < ds[p]
    ensures KraftOk(ds[p := ds[p] - 1], ds[p])
  {
    hide *;
    var m: nat := ds[p];
    var s := Shares(ds, m);
    KraftIs(ds, m);
    var t := s[p := 0];
    EvenPlus(0, 0);
    forall i | 0 <= i < |t| ensures Even(t[i]) {
      ShareAt(ds, m, i);
      if i != p { EvenShare(ds[i], m); }
    }
    ShareAt(ds, m, p);
    SmallShares(m);
    SumUpdate(s, p, 0);
    SumEven(t);
    EvenPow(m);
    WeightIs(ds, m);
    NextEven(Sum(t), Pow2(m));
    var d: nat := m - 1;
    WeightUpdate(ds, m, p, d);
    KraftIs(ds[p := d], m);
  }

  lemma KraftIs(ds: seq<nat>, max: nat)
    ensures KraftOk(ds, max) <==> (forall i :: 0 <= i < |ds| ==> ds[i] <= max) && Weight(ds, max) <= Pow2(max)
  {
    hide Weight, Pow2;
  }

  lemma EvenShare(d: nat, m: nat)
    requires d < m
    ensures Even(Share(d, m))
  {
    hide Even;
    EvenPow(m - d);
  }

  lemma WeightIs(ds: seq<nat>, max: nat)
    ensures Weight(ds, max) == Sum(Shares(ds, max))
  {}

  lemma EvenPow(n: nat)
    requires n >= 1
    ensures Even(Pow2(n))
  {
    hide Even;
    TwiceEven(Pow2(n - 1));
  }

  lemma TwiceEven(x: nat)
    ensures Even(2 * x)
  {}

  /** Two words cannot both be empty. */
  lemma SomeLength(ds: seq<nat>)
    requires KraftOk(ds, 0)
    ensures |ds| <= 1
  {
    hide Sum, Shares, Weight;
    WeightIs(ds, 0);
    if |ds| > 1 {
      ShareAt(ds, 0, 0);
      ShareAt(ds, 0, 1);
      SumWithout(Shares(ds, 0), 0, 1);
    }
  }

  lemma MulJoin(x: nat, y: nat, m: nat)
    requires m >= 1
    ensures Mul(x, m) + Mul(y, m) == Mul(x + y, m - 1) + x + y
  {}

  lemma WithoutAt<T>(s: seq<T>, i: nat, j: nat, k: nat)
    requires i < j < |s| && k < |s| - 2
    ensures Without(s, i, j)[k] == s[if k < i then k else if k < j - 1 then k + 1 else k + 2]
  {}

  /** Words at the same greatest depth give way to their common prefix. */
  lemma JoinWords(ws: seq<nat>, ds: seq<nat>, i: nat, j: nat, m: nat) returns (e: seq<nat>)
    requires |ws| == |ds| && i < j < |ws| && m >= 1 && ds[i] == ds[j] == m && KraftOk(ds, m)
    ensures |e| == |Joined(ws, i, j)| && KraftOk(e, m) && Cost(ws, ds) == Cost(Joined(ws, i, j), e) + ws[i] + ws[j]
  {
    hide Sum, Shares, Products, Mul, Share, Without;
    var d: nat := m - 1;
    var v := Joined(ws, i, j);
    e := Without(ds, i, j) + [d];
    var n := |ws| - 2;
    var s, t, p, q := Shares(ds, m), Shares(e, m), Products(ws, ds), Products(v, e);
    forall k | 0 <= k < n ensures t[k] == Without(s, i, j)[k] && q[k] == Without(p, i, j)[k] && e[k] <= m {
      WithoutAt(ds, i, j, k);
      WithoutAt(ws, i, j, k);
      WithoutAt(s, i, j, k);
      WithoutAt(p, i, j, k);
      var o := if k < i then k else if k < j - 1 then k + 1 else k + 2;
      ShareAt(ds, m, o);
      ShareAt(e, m, k);
      ProductAt(ws, ds, o);
      ProductAt(v, e, k);
    }
    ShareAt(e, m, n);
    ProductAt(v, e, n);
    assert t == Without(s, i, j) + [Share(m - 1, m)];
    assert q == Without(p, i, j) + [Mul(ws[i] + ws[j], m - 1)];
    SumConcat(Without(s, i, j), [Share(m - 1, m)]);
    SumConcat(Without(p, i, j), [Mul(ws[i] + ws[j], m - 1)]);
    SumOne(Share(m - 1, m));
    SumOne(Mul(ws[i] + ws[j], m - 1));
    SumWithout(s, i, j);
    SumWithout(p, i, j);
    ShareAt(ds, m, i);
    ShareAt(ds, m, j);
    ProductAt(ws, ds, i);
    ProductAt(ws, ds, j);
    MulJoin(ws[i], ws[j], m);
    SmallShares(m);
  }

  lemma SmallShares(m: nat)
    requires m >= 1
    ensures Share(m, m) == 1 && Share(m - 1, m) == 2
  {}

  /** Bringing the two lightest symbols to the greatest depth. */
  lemma RaiseTwo(ws: seq<nat>, ds: seq<nat>, i: nat, j: nat, p: nat, q: nat) returns (e: seq<nat>)
    requires |ws| == |ds| && Lightest(ws, i, j) && p < |ds| && q < |ds| && p != q && ds[p] == ds[q]
    requires Bounded(ds, ds[p]) && KraftOk(ds, ds[p])
    ensures |e| == |ds| && KraftOk(e, ds[p]) && e[i] == e[j] == ds[p] && Cost(ws, e) <= Cost(ws, ds)
  {
    hide Cost, Weight;
    var m := ds[p];
    e := ds;
    var a, b := p, q;
    if a == j || b == i { a, b := b, a; }
    // now `a` may only be `i`, and `b` may only be `j`, of the two
    if a != i {
      SwapBetter(ws, e, m, i, a);
      e := Swapped(e, i, a);
    }
    if b != j {
      SwapBetter(ws, e, m, j, b);
      e := Swapped(e, j, b);
    }
  }

  lemma {:induction false} CostAtLeast(ws: seq<nat>, i: nat, j: nat, c: nat, ds: seq<nat>, max: nat)
    requires Lightest(ws, i, j) && Lower(Joined(ws, i, j), c) && |ds| == |ws| && KraftOk(ds, max)
    ensures Cost(ws, ds) >= c + ws[i] + ws[j]
    decreases Sum(ds)
  {
    hide Cost, Weight, Sum, Without, Joined;
    var p := Deepest(ds);
    var m := ds[p];
    KraftAt(ds, max, m);
    if m == 0 { SomeLength(ds); }
    assert m >= 1;
    if q :| 0 <= q < |ds| && q != p && ds[q] == m {
      var e := RaiseTwo(ws, ds, i, j, p, q);
      var f := JoinWords(ws, e, i, j, m);
      assert Cost(Joined(ws, i, j), f) >= c;
    } else {
      Shorten(ds, p);
      var e := ds[p := m - 1];
      SumUpdate(ds, p, m - 1);
      CostUpdate(ws, ds, p, m - 1);
      MulLess(ws[p], m);
      CostAtLeast(ws, i, j, c, e, m);
    }
  }

  lemma MulLess(w: nat, m: nat)
    requires m >= 1
    ensures Mul(w, m - 1) <= Mul(w, m)
  {}

  /** Whatever bound holds once the two lightest symbols are joined, holds with their counts added before. */
  lemma JoinLower(ws: seq<nat>, i: nat, j: nat, c: nat)
    requires Lightest(ws, i, j) && Lower(Joined(ws, i, j), c)
    ensures Lower(ws, c + ws[i] + ws[j])
  {
    hide Cost, KraftOk, Joined;
    forall ds, max | |ds| == |ws| && KraftOk(ds, max) ensures Cost(ws, ds) >= c + ws[i] + ws[j] {
      CostAtLeast(ws, i, j, c, ds, max);
    }
  }

  // ----- prefix codes -----

  ghost predicate PrefixFree(words: seq<Bits>)
  {
    forall i, j :: 0 <= i < |words| && 0 <= j < |words| && i != j ==> !(words[i] <= words[j])
  }

  function Lengths(words: seq<Bits>): (ds: seq<nat>)
    ensures |ds| == |words| && forall i :: 0 <= i < |words| ==> ds[i] == |words[i]|
  {
    if words == [] then [] else Lengths(words[..|words| - 1]) + [|words[|words| - 1]|]
  }

  /** Which of the first `n` words begin with `b`. */
  function Starting(words: seq<Bits>, b: bool, n: nat): (ps: seq<nat>)
    requires n <= |words|
    ensures forall k :: 0 <= k < |ps| ==> ps[k] < n && words[ps[k]] != [] && words[ps[k]][0] == b
    ensures forall k, l :: 0 <= k < l < |ps| ==> ps[k] < ps[l]
  {
    if n == 0 then []
    else
      var ps := Starting(words, b, n - 1);
      if words[n - 1] != [] && words[n - 1][0] == b then ps + [n - 1] else ps
  }

  function Tails(words: seq<Bits>, ps: seq<nat>): (ts: seq<Bits>)
    requires forall k :: 0 <= k < |ps| ==> ps[k] < |words| && words[ps[k]] != []
    ensures |ts| == |ps| && forall k :: 0 <= k < |ps| ==> ts[k] == words[ps[k]][1..]
  {
    if ps == [] then [] else Tails(words, ps[..|ps| - 1]) + [words[ps[|ps| - 1]][1..]]
  }

  lemma TailsSnoc(words: seq<Bits>, ps: seq<nat>, p: nat)
    requires (forall k :: 0 <= k < |ps| ==> ps[k] < |words| && words[ps[k]] != []) && p < |words| && words[p] != []
    ensures Tails(words, ps + [p]) == Tails(words, ps) + [words[p][1..]]
  {
    hide Tails;
  }

  lemma WeightSnoc(ds: seq<nat>, d: nat, max: nat)
    ensures Weight(ds + [d], max) == Weight(ds, max) + Share(d, max)
  {
    hide Share;
    var t := Shares(ds + [d], max);
    assert (ds + [d])[..|ds|] == ds;
    assert t[..|ds|] == Shares(ds, max);
  }

  lemma LengthsSnoc(words: seq<Bits>, w: Bits)
    ensures Lengths(words + [w]) == Lengths(words) + [|w|]
  {
    hide Lengths;
  }

  lemma ShareDown(d: nat, max: nat)
    requires 1 <= d <= max
    ensures Share(d, max) == Share(d - 1, max - 1)
  {}

  ghost function TailWeight(words: seq<Bits>, b: bool, n: nat, max: nat): nat
    requires n <= |words|
  {
    Weight(Lengths(Tails(words, Starting(words, b, n))), max)
  }

  lemma TailWeightStep(words: seq<Bits>, b: bool, n: nat, max: nat)
    requires n < |words| && words[n] != []
    ensures TailWeight(words, b, n + 1, max)
         == TailWeight(words, b, n, max) + (if words[n][0] == b then Share(|words[n]| - 1, max) else 0)
  {
    hide Weight, Share;
    var ps := Starting(words, b, n);
    if words[n][0] == b {
      TailsSnoc(words, ps, n);
      LengthsSnoc(Tails(words, ps), words[n][1..]);
      WeightSnoc(Lengths(Tails(words, ps)), |words[n]| - 1, max);
    }
  }

  lemma WeightNone(max: nat)
    ensures Lengths([]) == [] && Weight([], max) == 0
  {}

  /** The code space splits at the first bit. */
  lemma {:induction false} WeightSplit(words: seq<Bits>, n: nat, max: nat)
    requires n <= |words| && max >= 1 && forall i :: 0 <= i < |words| ==> 1 <= |words[i]| <= max
    ensures Weight(Lengths(words[..n]), max) == TailWeight(words, false, n, max - 1) + TailWeight(words, true, n, max - 1)
    decreases n
  {
    hide *;
    if n == 0 {
      assert words[..0] == [];
      WeightNone(max);
      WeightNone(max - 1);
      TailWeightNone(words, false, max - 1);
      TailWeightNone(words, true, max - 1);
    } else {
      WeightSplit(words, n - 1, max);
      var w := words[n - 1];
      assert words[..n] == words[..n - 1] + [w];
      LengthsSnoc(words[..n - 1], w);
      WeightSnoc(Lengths(words[..n - 1]), |w|, max);
      TailWeightStep(words, false, n - 1, max - 1);
      TailWeightStep(words, true, n - 1, max - 1);
      ShareDown(|w|, max);
    }
  }

  lemma TailWeightNone(words: seq<Bits>, b: bool, max: nat)
    ensures TailWeight(words, b, 0, max) == 0
  {
    WeightNone(max);
  }

  lemma TailsFree(words: seq<Bits>, b: bool)
    requires PrefixFree(words)
    ensures PrefixFree(Tails(words, Starting(words, b, |words|)))
  {
    hide Tails, Starting;
    var ps := Starting(words, b, |words|);
    var ts := Tails(words, ps);
    forall i, j | 0 <= i < |ts| && 0 <= j < |ts| && i != j ensures !(ts[i] <= ts[j]) {
      var v, w := words[ps[i]], words[ps[j]];
      if i < j { assert ps[i] < ps[j]; } else { assert ps[j] < ps[i]; }
      assert !(v <= w);
      assert v == [b] + ts[i] && w == [b] + ts[j];
      if ts[i] <= ts[j] { PrefixCons(b, ts[i], ts[j]); }
    }
  }

  lemma PrefixCons(b: bool, x: Bits, y: Bits)
    requires x <= y
    ensures [b] + x <= [b] + y
  {}

  /** Kraft's inequality holds for every prefix code. */
  lemma {:induction false} PrefixKraft(words: seq<Bits>, max: nat)
    requires PrefixFree(words) && forall i :: 0 <= i < |words| ==> |words[i]| <= max
    ensures KraftOk(Lengths(words), max)
    decreases max, 1
  {
    hide *;
    if e :| 0 <= e < |words| && words[e] == [] {
      OnlyEmpty(words, e);
      OneEmpty(max);
    } else if words == [] {
      WeightNone(max);
      KraftIs([], max);
    } else {
      assert |words[0]| >= 1;
      WeightSplit(words, |words|, max);
      assert words[..|words|] == words;
      HalfKraft(words, false, max);
      HalfKraft(words, true, max);
      PowTwice(max - 1);
      forall i | 0 <= i < |words| ensures Lengths(words)[i] <= max {}
      KraftIs(Lengths(words), max);
    }
  }

  /** The words that begin with `b`, without that bit, fill at most half the space. */
  lemma {:induction false} HalfKraft(words: seq<Bits>, b: bool, max: nat)
    requires PrefixFree(words) && max >= 1 && forall i :: 0 <= i < |words| ==> 1 <= |words[i]| <= max
    ensures TailWeight(words, b, |words|, max - 1) <= Pow2(max - 1)
    decreases max, 0
  {
    hide *;
    TailsFree(words, b);
    var ps := Starting(words, b, |words|);
    var ts := Tails(words, ps);
    forall i | 0 <= i < |ts| ensures |ts[i]| <= max - 1 {
      assert ts[i] == words[ps[i]][1..];
    }
    PrefixKraft(ts, max - 1);
    KraftIs(Lengths(ts), max - 1);
    TailWeightIs(words, b, max - 1);
  }

  lemma OnlyIndex(words: seq<Bits>, e: nat, i: nat)
    requires PrefixFree(words) && e < |words| && i < |words| && words[e] == []
    ensures i == e
  {
    assert words[e] <= words[i];
  }

  lemma OnlyEmpty(words: seq<Bits>, e: nat)
    requires PrefixFree(words) && e < |words| && words[e] == []
    ensures words == [[]]
  {
    hide *;
    OnlyIndex(words, e, 0);
    OnlyIndex(words, e, |words| - 1);
  }

  lemma TailWeightIs(words: seq<Bits>, b: bool, max: nat)
    ensures TailWeight(words, b, |words|, max) == Weight(Lengths(Tails(words, Starting(words, b, |words|))), max)
  {
    hide Weight;
  }

  lemma PowTwice(n: nat)
    ensures Pow2(n + 1) == 2 * Pow2(n)
  {}

  lemma OneEmpty(max: nat)
    ensures KraftOk(Lengths([[]]), max)
  {
    LengthsSnoc([], []);
    WeightNone(max);
    WeightSnoc([], 0, max);
    var none: seq<Bits> := [];
    assert none + [[]] == [[]];
    assert [0] == [] + [0];
  }

  /** The bound is one on prefix codes. */
  lemma LowerIsBound(ws: seq<nat>, c: nat, words: seq<Bits>, max: nat)
    requires Lower(ws, c) && |words| == |ws| && PrefixFree(words) && forall i :: 0 <= i < |words| ==> |words[i]| <= max
    ensures Cost(ws, Lengths(words)) >= c
  {
    hide Cost, KraftOk;
    PrefixKraft(words, max);
  }
}
