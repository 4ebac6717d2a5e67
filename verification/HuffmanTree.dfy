/** Building a code from symbol counts by joining the two lightest trees until one is left. */
module HuffmanTrees {
  import opened BitStrings
  import opened Kraft

  datatype Tree =
    | Leaf(sym: nat, count: nat)
    | Node(a: Tree, b: Tree, count: nat)

  /** The counts are the ones of the table, and add up. */
  predicate Proper(t: Tree, ws: seq<nat>) {
    match t
    case Leaf(s, c) => s < |ws| && c == ws[s]
    case Node(a, b, c) => Proper(a, ws) && Proper(b, ws) && c == a.count + b.count
  }

  /** How often a symbol occurs. */
  function Occ(t: Tree, x: nat): nat {
    match t
    case Leaf(s, _) => if s == x then 1 else 0
    case Node(a, b, _) => Occ(a, x) + Occ(b, x)
  }

  function Height(t: Tree): nat {
    match t
    case Leaf(_, _) => 0
    case Node(a, b, _) => 1 + if Height(a) < Height(b) then Height(b) else Height(a)
  }

  /** What the joins spent on this tree. */
  function Joins(t: Tree): nat {
    match t
    case Leaf(_, _) => 0
    case Node(a, b, c) => Joins(a) + Joins(b) + c
  }

  // ----- storing the depths -----

  /** The array of lengths after the tree is stored at depth `d`. */
  function Stored(bits: seq<nat>, t: Tree, d: nat): (r: seq<nat>)
    ensures |r| == |bits|
    decreases t
  {
    match t
    case Leaf(s, _) => if s < |bits| then bits[s := d] else bits
    case Node(a, b, _) => Stored(Stored(bits, a, d + 1), b, d + 1)
  }

  method StoreTree(bits: array<nat>, t: Tree, d: nat, ghost ws: seq<nat>)
    requires Proper(t, ws) && |ws| == bits.Length
    modifies bits
    ensures bits[..] == Stored(old(bits[..]), t, d)
    decreases t
  {
    match t
    case Leaf(s, _) =>
      bits[s] := d;
    case Node(a, b, _) =>
      StoreTree(bits, a, d + 1, ws);
      StoreTree(bits, b, d + 1, ws);
  }

  /** Nothing but the tree's own symbols is written. */
  lemma {:induction false} StoredElsewhere(bits: seq<nat>, t: Tree, d: nat, x: nat)
    requires x < |bits| && Occ(t, x) == 0
    ensures Stored(bits, t, d)[x] == bits[x]
    decreases t
  {
    if t.Node? {
      StoredElsewhere(bits, t.a, d + 1, x);
      StoredElsewhere(Stored(bits, t.a, d + 1), t.b, d + 1, x);
    }
  }

  /** And they are written whatever they were. */
  lemma {:induction false} StoredHere(bits: seq<nat>, other: seq<nat>, t: Tree, d: nat, x: nat)
    requires x < |bits| == |other| && Occ(t, x) >= 1
    ensures Stored(bits, t, d)[x] == Stored(other, t, d)[x]
    decreases t
  {
    if t.Node? {
      var b, o := Stored(bits, t.a, d + 1), Stored(other, t.a, d + 1);
      if Occ(t.b, x) >= 1 {
        StoredHere(b, o, t.b, d + 1, x);
      } else {
        StoredHere(bits, other, t.a, d + 1, x);
        StoredElsewhere(b, t.b, d + 1, x);
        StoredElsewhere(o, t.b, d + 1, x);
      }
    }
  }

  lemma {:induction false} StoredDepth(bits: seq<nat>, t: Tree, d: nat, x: nat)
    requires x < |bits| && Occ(t, x) >= 1
    ensures d <= Stored(bits, t, d)[x] <= d + Height(t)
    decreases t
  {
    if t.Node? {
      if Occ(t.b, x) >= 1 {
        StoredDepth(Stored(bits, t.a, d + 1), t.b, d + 1, x);
      } else {
        StoredDepth(bits, t.a, d + 1, x);
        StoredElsewhere(Stored(bits, t.a, d + 1), t.b, d + 1, x);
      }
    }
  }

  /** No symbol twice. */
  ghost predicate Distinct(t: Tree) { forall x: nat :: Occ(t, x) <= 1 }

  /** Where the tree has a symbol, the array has `v`. */
  ghost predicate Unset(bits: seq<nat>, t: Tree, v: nat) {
    forall x :: 0 <= x < |bits| && Occ(t, x) >= 1 ==> bits[x] == v
  }

  lemma Halves(t: Tree, bits: seq<nat>, v: nat, d: nat)
    requires t.Node? && Distinct(t) && Unset(bits, t, v)
    ensures Distinct(t.a) && Distinct(t.b) && Unset(bits, t.a, v) && Unset(Stored(bits, t.a, d), t.b, v)
  {
    forall x: nat ensures Occ(t.a, x) <= 1 && Occ(t.b, x) <= 1 { assert Occ(t, x) <= 1; }
    forall x | 0 <= x < |bits| && Occ(t.a, x) >= 1 ensures bits[x] == v { assert Occ(t, x) >= 1; }
    var s := Stored(bits, t.a, d);
    forall x | 0 <= x < |s| && Occ(t.b, x) >= 1 ensures s[x] == v {
      assert Occ(t, x) >= 1 && Occ(t, x) <= 1;
      StoredElsewhere(bits, t.a, d, x);
    }
  }

  /** A tree stored at depth `d` takes the share of one word of that length. */
  lemma {:induction false} StoredWeight(bits: seq<nat>, t: Tree, d: nat, max: nat, ws: seq<nat>)
    requires Proper(t, ws) && |ws| == |bits| && Distinct(t) && Unset(bits, t, max + 1) && d + Height(t) <= max
    ensures Weight(Stored(bits, t, d), max) == Weight(bits, max) + Pow2(max - d)
    decreases t
  {
    hide Weight, Pow2, Unset, Distinct;
    match t
    case Leaf(s, c) =>
      assert Occ(t, s) == 1;
      UnsetAt(bits, t, max + 1, s);
      WeightUpdate(bits, max, s, d);
    case Node(a, b, c) =>
      Kraft.PowTwice(max - d - 1);
      Halves(t, bits, max + 1, d + 1);
      StoredWeight(bits, a, d + 1, max, ws);
      StoredWeight(Stored(bits, a, d + 1), b, d + 1, max, ws);
  }

  lemma UnsetAt(bits: seq<nat>, t: Tree, v: nat, x: nat)
    requires Unset(bits, t, v) && x < |bits| && Occ(t, x) >= 1
    ensures bits[x] == v
  {}

  lemma MulNext(c: nat, d: nat)
    ensures Mul(c, d + 1) == Mul(c, d) + c && Mul(c, 0) == 0
  {}

  lemma MulSum(x: nat, y: nat, d: nat)
    ensures Mul(x + y, d) == Mul(x, d) + Mul(y, d)
  {}

  /** The cost of the stored lengths is what the joins spent. */
  lemma {:induction false} StoredCost(bits: seq<nat>, t: Tree, d: nat, ws: seq<nat>)
    requires Proper(t, ws) && |ws| == |bits| && Distinct(t) && Unset(bits, t, 0)
    ensures Cost(ws, Stored(bits, t, d)) == Cost(ws, bits) + Joins(t) + Mul(t.count, d)
    decreases t
  {
    hide Cost, Mul, Unset, Distinct;
    match t
    case Leaf(s, c) =>
      assert Occ(t, s) == 1;
      UnsetAt(bits, t, 0, s);
      CostUpdate(ws, bits, s, d);
      MulNext(c, 0);
    case Node(a, b, c) =>
      Halves(t, bits, 0, d + 1);
      StoredCost(bits, a, d + 1, ws);
      StoredCost(Stored(bits, a, d + 1), b, d + 1, ws);
      MulNext(a.count, d);
      MulNext(b.count, d);
      MulSum(a.count, b.count, d);
  }

  // ----- the forest -----

  function Counts(f: seq<Tree>): (r: seq<nat>)
    ensures |r| == |f| && forall k :: 0 <= k < |f| ==> r[k] == f[k].count
  {
    if f == [] then [] else Counts(f[..|f| - 1]) + [f[|f| - 1].count]
  }

  function Spent(f: seq<Tree>): (r: seq<nat>)
    ensures |r| == |f| && forall k :: 0 <= k < |f| ==> r[k] == Joins(f[k])
  {
    if f == [] then [] else Spent(f[..|f| - 1]) + [Joins(f[|f| - 1])]
  }

  function Occs(f: seq<Tree>, x: nat): (r: seq<nat>)
    ensures |r| == |f| && forall k :: 0 <= k < |f| ==> r[k] == Occ(f[k], x)
  {
    if f == [] then [] else Occs(f[..|f| - 1], x) + [Occ(f[|f| - 1], x)]
  }

  /** The two trees leave, their join comes last. */
  function Replaced(f: seq<Tree>, i: nat, j: nat, t: Tree): (r: seq<Tree>)
    requires i < j < |f|
    ensures |r| == |f| - 1
  {
    Without(f, i, j) + [t]
  }

  /** Everything that is kept while trees are joined: each symbol is in one tree, and a bound on what is left to pay
      is, with what was already spent, a bound on the whole. */
  ghost predicate ForestOk(f: seq<Tree>, ws: seq<nat>, spent: nat) {
    && (forall k :: 0 <= k < |f| ==> Proper(f[k], ws))
    && (forall x :: 0 <= x < |ws| ==> Sum(Occs(f, x)) == 1)
    && Sum(Spent(f)) == spent
    && (forall c: nat :: Lower(Counts(f), c) ==> Lower(ws, c + spent))
  }

  predicate JoinOf(t: Tree, a: Tree, b: Tree) {
    t.Node? && t.count == a.count + b.count && ((t.a == a && t.b == b) || (t.a == b && t.b == a))
  }

  lemma ReplacedAt(f: seq<Tree>, i: nat, j: nat, t: Tree, k: nat)
    requires i < j < |f| && k < |f| - 1
    ensures Replaced(f, i, j, t)[k]
         == if k == |f| - 2 then t else f[if k < i then k else if k < j - 1 then k + 1 else k + 2]
  {}

  /** Replacing two entries by one changes a sum by the difference. */
  lemma SumReplaced(p: seq<nat>, q: seq<nat>, i: nat, j: nat)
    requires i < j < |p| && |q| == |p| - 1
    requires forall k :: 0 <= k < |q| - 1 ==> q[k] == Without(p, i, j)[k]
    ensures Sum(q) + p[i] + p[j] == Sum(p) + q[|q| - 1]
  {
    hide Sum, Without;
    var last := q[|q| - 1];
    assert q == Without(p, i, j) + [last];
    SumConcat(Without(p, i, j), [last]);
    SumOne(last);
    SumWithout(p, i, j);
  }

  lemma CountsReplaced(f: seq<Tree>, i: nat, j: nat, t: Tree)
    requires i < j < |f| && JoinOf(t, f[i], f[j])
    ensures Counts(Replaced(f, i, j, t)) == Joined(Counts(f), i, j)
  {
    hide Counts, Replaced, Without;
    var p, q := Counts(Replaced(f, i, j, t)), Joined(Counts(f), i, j);
    forall k | 0 <= k < |p| ensures p[k] == q[k] {
      ReplacedAt(f, i, j, t, k);
      if k < |f| - 2 { WithoutAt(Counts(f), i, j, k); }
    }
  }

  lemma SpentReplaced(f: seq<Tree>, i: nat, j: nat, t: Tree)
    requires i < j < |f| && JoinOf(t, f[i], f[j])
    ensures Sum(Spent(Replaced(f, i, j, t))) == Sum(Spent(f)) + t.count
  {
    hide Spent, Replaced, Without, Sum;
    var p, q := Spent(f), Spent(Replaced(f, i, j, t));
    forall k | 0 <= k < |q| - 1 ensures q[k] == Without(p, i, j)[k] {
      ReplacedAt(f, i, j, t, k);
      WithoutAt(p, i, j, k);
    }
    ReplacedAt(f, i, j, t, |f| - 2);
    SumReplaced(p, q, i, j);
  }

  lemma OccsReplaced(f: seq<Tree>, i: nat, j: nat, t: Tree, x: nat)
    requires i < j < |f| && JoinOf(t, f[i], f[j])
    ensures Sum(Occs(Replaced(f, i, j, t), x)) == Sum(Occs(f, x))
  {
    hide Occs, Replaced, Without, Sum;
    var p, q := Occs(f, x), Occs(Replaced(f, i, j, t), x);
    forall k | 0 <= k < |q| - 1 ensures q[k] == Without(p, i, j)[k] {
      ReplacedAt(f, i, j, t, k);
      WithoutAt(p, i, j, k);
    }
    ReplacedAt(f, i, j, t, |f| - 2);
    SumReplaced(p, q, i, j);
  }

  /** One join keeps it all, if the two trees are the lightest. */
  lemma ForestJoin(f: seq<Tree>, ws: seq<nat>, spent: nat, i: nat, j: nat, t: Tree)
    requires ForestOk(f, ws, spent) && Lightest(Counts(f), i, j) && JoinOf(t, f[i], f[j])
    ensures ForestOk(Replaced(f, i, j, t), ws, spent + t.count)
  {
    hide Lower, Sum, Counts, Spent, Occs, Replaced, Occ, Joins;
    var g := Replaced(f, i, j, t);
    forall k | 0 <= k < |g| ensures Proper(g[k], ws) {
      ReplacedAt(f, i, j, t, k);
    }
    forall x | 0 <= x < |ws| ensures Sum(Occs(g, x)) == 1 { OccsReplaced(f, i, j, t, x); }
    SpentReplaced(f, i, j, t);
    CountsReplaced(f, i, j, t);
    forall c: nat | Lower(Counts(g), c) ensures Lower(ws, c + (spent + t.count)) {
      JoinLower(Counts(f), i, j, c);
      assert Lower(Counts(f), c + t.count);
    }
  }

  function Leaves(ws: seq<nat>): (f: seq<Tree>)
    ensures |f| == |ws| && forall k :: 0 <= k < |f| ==> f[k] == Leaf(k, ws[k])
  {
    if ws == [] then [] else Leaves(ws[..|ws| - 1]) + [Leaf(|ws| - 1, ws[|ws| - 1])]
  }

  lemma {:induction false} SumZeros(xs: seq<nat>)
    requires forall k :: 0 <= k < |xs| ==> xs[k] == 0
    ensures Sum(xs) == 0
  {
    if xs != [] { SumZeros(xs[..|xs| - 1]); }
  }

  lemma LeavesOk(ws: seq<nat>)
    ensures ForestOk(Leaves(ws), ws, 0)
  {
    hide Lower, Sum, Leaves, Counts, Spent, Occs;
    var f := Leaves(ws);
    forall x | 0 <= x < |ws| ensures Sum(Occs(f, x)) == 1 {
      var p := Occs(f, x);
      var z := p[x := 0];
      SumZeros(z);
      SumUpdate(z, x, 1);
      assert z[x := 1] == p;
    }
    SumZeros(Spent(f));
    assert Counts(f) == ws;
  }

  /** With one tree left nothing more has to be paid. */
  lemma OneLeft(f: seq<Tree>, ws: seq<nat>, spent: nat)
    requires ForestOk(f, ws, spent) && |f| == 1
    ensures Proper(f[0], ws) && Joins(f[0]) == spent && Lower(ws, spent)
    ensures forall x :: 0 <= x < |ws| ==> Occ(f[0], x) == 1
  {
    hide Sum, Cost, KraftOk;
    assert Lower(Counts(f), 0);
    assert Lower(ws, 0 + spent);
    SumOne(Joins(f[0]));
    assert Spent(f) == [Joins(f[0])];
    forall x | 0 <= x < |ws| ensures Occ(f[0], x) == 1 {
      SumOne(Occ(f[0], x));
      assert Occs(f, x) == [Occ(f[0], x)];
    }
  }

  lemma {:induction false} NoOthers(t: Tree, ws: seq<nat>, x: nat)
    requires Proper(t, ws) && x >= |ws|
    ensures Occ(t, x) == 0
    decreases t
  {
    if t.Node? {
      NoOthers(t.a, ws, x);
      NoOthers(t.b, ws, x);
    }
  }

  lemma Once(t: Tree, ws: seq<nat>)
    requires Proper(t, ws) && forall x :: 0 <= x < |ws| ==> Occ(t, x) == 1
    ensures Distinct(t)
  {
    forall x: nat ensures Occ(t, x) <= 1 {
      if x >= |ws| { NoOthers(t, ws, x); }
    }
  }

  // ----- what the lengths are worth -----

  function Fill(n: nat, v: nat): (r: seq<nat>)
    ensures |r| == n && forall k :: 0 <= k < n ==> r[k] == v
  {
    if n == 0 then [] else Fill(n - 1, v) + [v]
  }

  lemma StoredAnyway(bits: seq<nat>, other: seq<nat>, t: Tree, d: nat)
    requires |bits| == |other| && forall x :: 0 <= x < |bits| ==> Occ(t, x) == 1
    ensures Stored(bits, t, d) == Stored(other, t, d)
  {
    hide Stored;
    var b, o := Stored(bits, t, d), Stored(other, t, d);
    forall x | 0 <= x < |b| ensures b[x] == o[x] { StoredHere(bits, other, t, d, x); }
  }

  lemma FillCost(ws: seq<nat>)
    ensures Cost(ws, Fill(|ws|, 0)) == 0
  {
    hide Sum, Mul;
    var p := Products(ws, Fill(|ws|, 0));
    forall k | 0 <= k < |p| ensures p[k] == 0 {
      ProductAt(ws, Fill(|ws|, 0), k);
      MulNext(ws[k], 0);
    }
    SumZeros(p);
  }

  lemma FillWeight(n: nat, max: nat)
    ensures Weight(Fill(n, max + 1), max) == 0
  {
    hide Sum, Shares;
    var p := Shares(Fill(n, max + 1), max);
    forall k | 0 <= k < |p| ensures p[k] == 0 { ShareAt(Fill(n, max + 1), max, k); }
    SumZeros(p);
  }

  lemma FillUnset(n: nat, v: nat, t: Tree)
    ensures Unset(Fill(n, v), t, v)
  {}

  /** The whole code space is used, at whatever length it is measured. */
  ghost predicate Complete(ds: seq<nat>) {
    forall max: nat :: Bounded(ds, max) ==> Weight(ds, max) == Pow2(max)
  }

  lemma CompleteOnce(ds: seq<nat>, h: nat)
    requires Bounded(ds, h) && Weight(ds, h) == Pow2(h)
    ensures Complete(ds)
  {
    hide Weight, Pow2, Shl;
    forall max: nat | Bounded(ds, max) ensures Weight(ds, max) == Pow2(max) {
      if max >= h {
        WeightScale(ds, h, max - h);
        ShlPow2(h);
        ShlPow2(max);
        ShlShl(1, h, max - h);
      } else {
        WeightScale(ds, max, h - max);
        ShlPow2(h);
        ShlPow2(max);
        ShlShl(1, max, h - max);
        ShlMonoBack(Weight(ds, max), Pow2(max), h - max);
        ShlMonoBack(Pow2(max), Weight(ds, max), h - max);
      }
    }
  }

  /** The depths of the last tree left fill the code space and cost what the joins spent, which no prefix code beats. */
  lemma DepthsBest(bits: seq<nat>, t: Tree, ws: seq<nat>)
    requires |bits| == |ws| && Proper(t, ws) && Lower(ws, Joins(t)) && forall x :: 0 <= x < |ws| ==> Occ(t, x) == 1
    ensures var ds := Stored(bits, t, 0); Complete(ds) && Lower(ws, Cost(ws, ds))
  {
    hide Stored, Weight, Cost, Pow2, Occ, Proper, Lower, Joins, Mul, Bounded, Complete;
    var n, h := |ws|, Height(t);
    var ds := Stored(bits, t, 0);
    Once(t, ws);
    StoredAnyway(bits, Fill(n, h + 1), t, 0);
    FillUnset(n, h + 1, t);
    StoredWeight(Fill(n, h + 1), t, 0, h, ws);
    FillWeight(n, h);
    assert Bounded(ds, h) by {
      forall x | 0 <= x < n ensures ds[x] <= h { StoredDepth(bits, t, 0, x); }
      BoundedIs(ds, h);
    }
    CompleteOnce(ds, h);
    StoredAnyway(bits, Fill(n, 0), t, 0);
    FillUnset(n, 0, t);
    StoredCost(Fill(n, 0), t, 0, ws);
    FillCost(ws);
    MulNext(t.count, 0);
  }

  lemma BoundedIs(ds: seq<nat>, h: nat)
    ensures Bounded(ds, h) <==> (forall x :: 0 <= x < |ds| ==> ds[x] <= h)
  {}

  // ----- the nodes array -----

  /** Which of two nodes the search prefers: the lighter, and of equals the later. */
  predicate Before(count: seq<int>, x: nat, y: nat)
    requires x < |count| && y < |count|
  {
    count[x] < count[y] || (count[x] == count[y] && x > y)
  }

  /** The two nodes the search ends with, among the first `n`; nodes already joined have count -1. */
  ghost predicate Lightest2(count: seq<int>, n: nat, x: nat, y: nat) {
    && n <= |count| && x < n && y < n && count[x] >= 0 && count[y] >= 0 && Before(count, x, y)
    && forall k :: 0 <= k < n && k != x && k != y && count[k] >= 0 ==> Before(count, y, k)
  }

  method FindLightest(count: array<int>, n: nat, ghost p: nat, ghost q: nat) returns (x: nat, y: nat)
    requires n <= count.Length && p < q < n && count[p] >= 0 && count[q] >= 0
    ensures Lightest2(count[..], n, x, y)
  {
    var one, two := -1, -1;
    var k := 0;
    while k < n
      invariant 0 <= k <= n
      invariant one == -1 ==> (forall l :: 0 <= l < k ==> count[l] < 0)
      invariant one != -1 ==> 0 <= one < k && count[one] >= 0
      invariant two != -1 ==> one != -1 && 0 <= two < k && count[two] >= 0 && Before(count[..], one, two)
      invariant one != -1 && two == -1 ==> forall l :: 0 <= l < k && l != one ==> count[l] < 0
      invariant two != -1 ==> forall l :: 0 <= l < k && l != one && l != two && count[l] >= 0 ==> Before(count[..], two, l)
    {
      if count[k] >= 0 {
        if one == -1 || count[k] <= count[one] {
          two := one;
          one := k;
        } else if two == -1 || count[k] <= count[two] {
          two := k;
        }
      }
      k := k + 1;
    }
    x, y := one, two;
  }

  /** The trees not yet joined, in the order they stand in the array. */
  ghost predicate Live(tree: seq<Tree>, count: seq<int>, n: nat, at: seq<nat>, f: seq<Tree>) {
    && n <= |tree| == |count| && |at| == |f|
    && (forall k :: 0 <= k < |at| ==> at[k] < n && tree[at[k]] == f[k] && count[at[k]] == f[k].count)
    && (forall k, l :: 0 <= k < l < |at| ==> at[k] < at[l])
    && (forall x :: 0 <= x < n && count[x] >= 0 ==> x in at)
  }

  lemma TwoPlaces(tree: seq<Tree>, count: seq<int>, n: nat, at: seq<nat>, f: seq<Tree>, x: nat, y: nat)
    returns (i: nat, j: nat)
    requires Live(tree, count, n, at, f) && Lightest2(count, n, x, y)
    ensures i < j < |at| && ((at[i] == x && at[j] == y) || (at[i] == y && at[j] == x)) && Lightest(Counts(f), i, j)
  {
    assert x in at && y in at;
    i :| 0 <= i < |at| && at[i] == x;
    j :| 0 <= j < |at| && at[j] == y;
    if j < i { i, j := j, i; }
    forall k | 0 <= k < |f| && k != i && k != j ensures f[i].count <= f[k].count && f[j].count <= f[k].count {
      assert at[k] != x && at[k] != y && count[at[k]] >= 0;
      assert Before(count, y, at[k]) && Before(count, x, y);
    }
  }

  /** The arrays after a join. */
  lemma LiveJoin(tree: seq<Tree>, count: seq<int>, n: nat, at: seq<nat>, f: seq<Tree>, i: nat, j: nat, t: Tree)
    requires Live(tree, count, n, at, f) && n < |tree| && i < j < |at|
    ensures Live(tree[n := t], count[n := t.count][at[i] := -1][at[j] := -1], n + 1, Without(at, i, j) + [n],
                 Replaced(f, i, j, t))
  {
    hide Without;
    var m := |at| - 2;
    var at', f' := Without(at, i, j) + [n], Replaced(f, i, j, t);
    var count' := count[n := t.count][at[i] := -1][at[j] := -1];
    forall k | 0 <= k < |at'|
      ensures at'[k] == if k == m then n else at[Old(i, j, k)]
      ensures k < m ==> Old(i, j, k) < |at| && Old(i, j, k) != i && Old(i, j, k) != j
      ensures f'[k] == if k == m then t else f[Old(i, j, k)]
    {
      if k < m {
        WithoutAt(at, i, j, k);
        WithoutAt(f, i, j, k);
      }
    }
    forall k | 0 <= k < |at'| ensures at'[k] < n + 1 && tree[n := t][at'[k]] == f'[k] && count'[at'[k]] == f'[k].count {
      if k < m { Different(at, Old(i, j, k), i, j); }
    }
    forall k, l | 0 <= k < l < |at'| ensures at'[k] < at'[l] {
      if l < m { assert Old(i, j, k) < Old(i, j, l); }
    }
    forall x | 0 <= x < n + 1 && count'[x] >= 0 ensures x in at' {
      if x == n {
        assert at'[m] == x;
      } else {
        assert x in at;
        var o :| 0 <= o < |at| && at[o] == x;
        assert o != i && o != j;
        var k := if o < i then o else if o < j then o - 1 else o - 2;
        assert Old(i, j, k) == o && at'[k] == x;
      }
    }
  }

  lemma Different(at: seq<nat>, o: nat, i: nat, j: nat)
    requires o < |at| && i < |at| && j < |at| && o != i && o != j && forall k, l :: 0 <= k < l < |at| ==> at[k] < at[l]
    ensures at[o] != at[i] && at[o] != at[j]
  {}

  function Old(i: nat, j: nat, k: nat): nat { if k < i then k else if k < j - 1 then k + 1 else k + 2 }

  lemma LeavesLive(tree: seq<Tree>, count: seq<int>, ws: seq<nat>, at: seq<nat>)
    requires |ws| <= |tree| == |count| && |at| == |ws| && forall k :: 0 <= k < |ws| ==> at[k] == k
    requires forall k :: 0 <= k < |ws| ==> tree[k] == Leaf(k, ws[k]) && count[k] == ws[k]
    ensures Live(tree, count, |ws|, at, Leaves(ws))
  {
    hide Leaves;
    forall x | 0 <= x < |ws| && count[x] >= 0 ensures x in at { assert at[x] == x; }
  }

  /** One leaf for each symbol. */
  method Plant(ws: seq<nat>, tree: array<Tree>, count: array<int>) returns (ghost at: seq<nat>)
    requires |ws| <= tree.Length == count.Length
    modifies tree, count
    ensures |at| == |ws| && Live(tree[..], count[..], |ws|, at, Leaves(ws))
  {
    hide Leaves, Live;
    at := [];
    var k := 0;
    while k < |ws|
      invariant 0 <= k <= |ws| && |at| == k
      invariant forall l :: 0 <= l < k ==> tree[l] == Leaf(l, ws[l]) && count[l] == ws[l] && at[l] == l
      modifies tree, count
    {
      tree[k], count[k] := Leaf(k, ws[k]), ws[k];
      at := at + [k];
      k := k + 1;
    }
    LeavesLive(tree[..], count[..], ws, at);
  }

  /** One round: the two lightest trees become the children of a new one. */
  method JoinTwo(tree: array<Tree>, count: array<int>, next: nat,
                 ghost at: seq<nat>, ghost f: seq<Tree>, ghost ws: seq<nat>, ghost spent: nat)
    returns (ghost newAt: seq<nat>, ghost newForest: seq<Tree>, ghost newSpent: nat)
    requires next < tree.Length == count.Length && |f| >= 2
    requires Live(tree[..], count[..], next, at, f) && ForestOk(f, ws, spent)
    modifies tree, count
    ensures |newForest| == |f| - 1 && tree[next] == newForest[|f| - 2]
    ensures Live(tree[..], count[..], next + 1, newAt, newForest) && ForestOk(newForest, ws, newSpent)
  {
    hide *;
    LiveSizes(tree[..], count[..], next, at, f);
    LivePlaces(tree[..], count[..], next, at, f, 0, 1);
    var x, y := FindLightest(count, next, at[0], at[1]);
    ghost var i, j := TwoPlaces(tree[..], count[..], next, at, f, x, y);
    LivePlaces(tree[..], count[..], next, at, f, i, j);
    var t := Node(tree[x], tree[y], (count[x] + count[y]) as nat);
    JoinIs(t, f[i], f[j]);
    newAt, newForest, newSpent := Without(at, i, j) + [next], Replaced(f, i, j, t), spent + t.count;
    LiveJoin(tree[..], count[..], next, at, f, i, j, t);
    ForestJoin(f, ws, spent, i, j, t);
    ReplacedAt(f, i, j, t, |f| - 2);
    ghost var before, was := tree[..], count[..];
    tree[next], count[next] := t, t.count;
    count[x] := -1;
    count[y] := -1;
    assert tree[..] == before[next := t];
    assert count[..] == was[next := t.count][at[i] := -1][at[j] := -1];
  }

  lemma JoinIs(t: Tree, a: Tree, b: Tree)
    requires t.Node? && t.count == a.count + b.count && ((t.a == a && t.b == b) || (t.a == b && t.b == a))
    ensures JoinOf(t, a, b)
  {}

  /** The lengths of a best code: they fill the code space and cost no more than those of any prefix code. */
  method MakeTree(ws: seq<nat>, bits: array<nat>)
    requires 1 <= |ws| == bits.Length
    modifies bits
    ensures |ws| == 1 ==> bits[..] == [1]
    ensures |ws| >= 2 ==> Complete(bits[..]) && Lower(ws, Cost(ws, bits[..]))
  {
    hide *;
    var n := |ws|;
    var size := 2 * n - 1;
    var tree := new Tree[size](_ => Leaf(0, 0));
    var count := new int[size](_ => -1);
    ghost var at := Plant(ws, tree, count);
    LeavesOk(ws);
    ghost var f, spent: nat := Leaves(ws), 0;
    var left, next := n, n;
    while left > 1
      invariant 1 <= left <= n && next + left == 2 * n && |f| == left
      invariant Live(tree[..], count[..], next, at, f)
      invariant ForestOk(f, ws, spent)
      invariant if left < n then tree[next - 1] == f[left - 1] else f == Leaves(ws)
      modifies tree, count
    {
      at, f, spent := JoinTwo(tree, count, next, at, f, ws, spent);
      next, left := next + 1, left - 1;
    }
    OneLeft(f, ws, spent);
    if n > 1 {
      var root := tree[next - 1];
      DepthsBest(bits[..], root, ws);
      StoreTree(bits, root, 0, ws);
    } else {
      LiveOne(tree[..], count[..], at, f);
      OneLeaf(ws);
      ghost var was := bits[..];
      StoreTree(bits, tree[0], 1, ws);
      StoredOnly(was, tree[0], ws);
    }
  }

  lemma StoredOnly(bits: seq<nat>, t: Tree, ws: seq<nat>)
    requires |bits| == |ws| == 1 && t.Leaf? && Proper(t, ws)
    ensures Stored(bits, t, 1) == [1]
  {}

  lemma OneLeaf(ws: seq<nat>)
    requires |ws| == 1
    ensures Leaves(ws)[0] == Leaf(0, ws[0])
  {}

  lemma LiveOne(tree: seq<Tree>, count: seq<int>, at: seq<nat>, f: seq<Tree>)
    requires Live(tree, count, 1, at, f) && |f| == 1
    ensures |tree| >= 1 && tree[0] == f[0]
  {}

  lemma LiveSizes(tree: seq<Tree>, count: seq<int>, n: nat, at: seq<nat>, f: seq<Tree>)
    requires Live(tree, count, n, at, f)
    ensures n <= |tree| == |count| && |at| == |f|
  {}

  lemma LivePlaces(tree: seq<Tree>, count: seq<int>, n: nat, at: seq<nat>, f: seq<Tree>, i: nat, j: nat)
    requires Live(tree, count, n, at, f) && i < j < |at|
    ensures at[i] < at[j] < n && tree[at[i]] == f[i] && tree[at[j]] == f[j]
    ensures count[at[i]] == f[i].count && count[at[j]] == f[j].count
  {}
}
