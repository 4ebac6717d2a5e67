/** Numbering the words of a complete set of lengths, longest first, and the decoding table they make. */
module HuffmanCodes {
  import opened BitStrings
  import opened CanonicalHuffman
  import opened HuffmanTrees
  import opened Kraft

  ghost predicate Descending(bits: seq<nat>) { forall i, j :: 0 <= i < j < |bits| ==> bits[j] <= bits[i] }

  // ----- where each word begins in the code space -----

  /** The space taken by the words before word `k`, at the greatest length. */
  ghost function Start(bits: seq<nat>, k: nat, max: nat): nat
    requires k <= |bits|
  {
    Weight(bits[..k], max)
  }

  lemma StartNext(bits: seq<nat>, k: nat, max: nat)
    requires k < |bits|
    ensures Start(bits, k + 1, max) == Start(bits, k, max) + Share(bits[k], max)
  {
    hide Weight, Share;
    assert bits[..k + 1] == bits[..k] + [bits[k]];
    WeightSnoc(bits[..k], bits[k], max);
  }

  lemma StartEnds(bits: seq<nat>, max: nat)
    ensures Start(bits, 0, max) == 0 && Start(bits, |bits|, max) == Weight(bits, max)
  {
    assert bits[..0] == [] && bits[..|bits|] == bits;
  }

  lemma {:induction false} StartMono(bits: seq<nat>, k: nat, l: nat, max: nat)
    requires k <= l <= |bits|
    ensures Start(bits, k, max) <= Start(bits, l, max)
    decreases l
  {
    hide Start, Share;
    if k < l {
      StartMono(bits, k, l - 1, max);
      StartNext(bits, l - 1, max);
    }
  }

  /** Words no longer than `d` take a multiple of the share of such a word. */
  lemma {:induction false} RestIsMultiple(ds: seq<nat>, d: nat, max: nat) returns (q: nat)
    requires Bounded(ds, d) && d <= max
    ensures Weight(ds, max) == Shl(q, max - d)
    decreases |ds|
  {
    hide *;
    if ds == [] {
      q := 0;
      WeightNone(max);
      ShlZero(max - d);
    } else {
      var n := |ds| - 1;
      var init, x := ds[..n], ds[n];
      BoundedIs(ds, d);
      BoundedIs(init, d);
      var p := RestIsMultiple(init, d, max);
      assert ds == init + [x];
      WeightSnoc(init, x, max);
      ShareShl(x, d, max);
      q := p + Pow2(d - x);
      ShlPlus(p, Pow2(d - x), max - d);
    }
  }

  lemma {:induction false} ShlZero(n: nat)
    ensures Shl(0, n) == 0
  {
    if n > 0 { ShlZero(n - 1); }
  }

  lemma ShareShl(x: nat, d: nat, max: nat)
    requires x <= d <= max
    ensures Share(x, max) == Shl(Pow2(d - x), max - d)
  {
    hide Shl, Pow2;
    ShlPow2(d - x);
    ShlPow2(max - x);
    ShlShl(1, d - x, max - d);
  }

  /** The space left by word `k` and those behind it is a multiple of its share. */
  lemma LimitIsMultiple(bits: seq<nat>, k: nat, max: nat) returns (q: nat)
    requires k < |bits| && Descending(bits) && KraftOk(bits, max)
    ensures bits[k] <= max && Shl(q, max - bits[k]) + Weight(bits[k..], max) == Pow2(max)
  {
    hide *;
    KraftIs(bits, max);
    var d := bits[k];
    var rest := bits[k..];
    forall i | 0 <= i < |rest| ensures rest[i] <= d { DescendingAt(bits, k, k + i); }
    BoundedIs(rest, d);
    var p := RestIsMultiple(rest, d, max);
    WeightSplitAt(bits, k, max);
    ShareShl(0, d, max);
    ShareZero(max);
    q := MultipleLess(Pow2(d), p, max - d);
    ShlPlus(q, p, max - d);
  }

  lemma StartIs(bits: seq<nat>, k: nat, max: nat)
    requires k <= |bits|
    ensures Start(bits, k, max) == Weight(bits[..k], max)
  {}

  lemma ShareZero(max: nat)
    ensures Share(0, max) == Pow2(max)
  {}

  lemma MultipleLess(a: nat, b: nat, n: nat) returns (q: nat)
    requires Shl(b, n) <= Shl(a, n)
    ensures a == q + b
  {
    ShlMonoBack(b, a, n);
    q := a - b;
  }

  lemma DescendingAt(bits: seq<nat>, i: nat, j: nat)
    requires Descending(bits) && i <= j < |bits|
    ensures bits[j] <= bits[i]
  {}

  lemma {:induction false} WeightConcat(a: seq<nat>, b: seq<nat>, max: nat)
    ensures Weight(a + b, max) == Weight(a, max) + Weight(b, max)
    decreases |b|
  {
    hide *;
    if b == [] {
      WeightNone(max);
      assert a + b == a;
    } else {
      var n := |b| - 1;
      WeightConcat(a, b[..n], max);
      assert a + b == (a + b[..n]) + [b[n]] && b == b[..n] + [b[n]];
      WeightSnoc(a + b[..n], b[n], max);
      WeightSnoc(b[..n], b[n], max);
    }
  }

  lemma WeightSplitAt(bits: seq<nat>, k: nat, max: nat)
    requires k <= |bits|
    ensures Weight(bits, max) == Weight(bits[..k], max) + Weight(bits[k..], max)
  {
    hide Weight;
    assert bits == bits[..k] + bits[k..];
    WeightConcat(bits[..k], bits[k..], max);
  }

  // ----- the codes -----

  /** Each word's code, as a word of its length, stands where the words before it end. */
  ghost predicate Placed(bits: seq<nat>, code: seq<nat>, max: nat) {
    |code| == |bits| && Bounded(bits, max)
    && forall k :: 0 <= k < |bits| ==> Shl(code[k], max - bits[k]) == Start(bits, k, max)
  }

  /** Where a code stands in the space, and where its word's share ends. */
  ghost function Position(bits: seq<nat>, code: seq<nat>, k: nat, max: nat): nat
    requires k < |code| <= |bits| && bits[k] <= max
  {
    Shl(code[k], max - bits[k])
  }

  ghost function End(bits: seq<nat>, code: seq<nat>, k: nat, max: nat): nat
    requires k < |code| <= |bits| && bits[k] <= max
  {
    Shl(code[k] + 1, max - bits[k])
  }

  /** The first codes: none before the words before it, none over another, and room for all words still to come. */
  ghost predicate Ordered(bits: seq<nat>, code: seq<nat>, max: nat) {
    && |code| <= |bits| && Bounded(bits, max)
    && (forall k :: 0 <= k < |code| ==>
          Start(bits, k, max) <= Position(bits, code, k, max) && End(bits, code, k, max) + Weight(bits[k + 1..], max) <= Pow2(max))
    && forall k, l :: 0 <= k < l < |code| ==> End(bits, code, k, max) <= Position(bits, code, l, max)
  }

  lemma OrderedAt(bits: seq<nat>, code: seq<nat>, k: nat, max: nat)
    requires Ordered(bits, code, max) && k < |code|
    ensures |code| <= |bits| && bits[k] <= max && Start(bits, k, max) <= Position(bits, code, k, max)
    ensures End(bits, code, k, max) + Weight(bits[k + 1..], max) <= Pow2(max)
    ensures End(bits, code, k, max) == Position(bits, code, k, max) + Share(bits[k], max)
  {
    hide Weight, Shl, Start, Pow2;
    ShareShl(bits[k], bits[k], max);
    PowZero();
    ShlPlus(code[k], 1, max - bits[k]);
  }

  lemma OrderedPair(bits: seq<nat>, code: seq<nat>, k: nat, l: nat, max: nat)
    requires Ordered(bits, code, max) && k < l < |code|
    ensures |code| <= |bits| && bits[k] <= max && bits[l] <= max
    ensures End(bits, code, k, max) <= Position(bits, code, l, max)
  {
    hide Weight, Start, Pow2, Position, End;
  }

  /** Shifting out what the next word has no room for and adding one rounds up to its share, and no further. */
  lemma RoundUp(code: nat, e: nat, m: nat, p: nat)
    requires Shl(code + 1, m) <= Shl(p, e + m)
    ensures Shl(code + 1, m) <= Shl(Shr(code, e) + 1, e + m) <= Shl(p, e + m)
  {
    hide *;
    var q := Shr(code, e);
    ShlShl(p, e, m);
    ShlMonoBack(code + 1, Shl(p, e), m);
    Recompose(code, e);
    LowBound(code, e);
    ShlPlus(q, 1, e);
    ShlPow2(e);
    if p <= q { ShlMono(p, q, e); }
    ShlMono(code + 1, Shl(q + 1, e), m);
    ShlShl(q + 1, e, m);
    ShlMono(q + 1, p, e + m);
  }

  lemma PowZero()
    ensures Pow2(0) == 1
  {}

  lemma OrderedIs(bits: seq<nat>, code: seq<nat>, max: nat)
    requires |code| <= |bits| && Bounded(bits, max)
    requires forall k :: 0 <= k < |code| ==> bits[k] <= max
    requires forall k :: 0 <= k < |code| ==>
      Start(bits, k, max) <= Position(bits, code, k, max) && End(bits, code, k, max) + Weight(bits[k + 1..], max) <= Pow2(max)
    requires forall k, l :: 0 <= k < l < |code| ==> End(bits, code, k, max) <= Position(bits, code, l, max)
    ensures Ordered(bits, code, max)
  {
    hide Weight, Start, Pow2, Position, End;
  }

  lemma PositionIs(bits: seq<nat>, code: seq<nat>, k: nat, max: nat)
    requires k < |code| <= |bits| && bits[k] <= max
    ensures Position(bits, code, k, max) == Shl(code[k], max - bits[k])
    ensures End(bits, code, k, max) == Shl(code[k] + 1, max - bits[k])
    ensures End(bits, code, k, max) == Position(bits, code, k, max) + Share(bits[k], max)
  {
    hide Shl, Pow2;
    ShareShl(bits[k], bits[k], max);
    PowZero();
    ShlPlus(code[k], 1, max - bits[k]);
  }

  lemma WeightFrom(bits: seq<nat>, k: nat, max: nat)
    requires k < |bits|
    ensures Weight(bits[k..], max) == Share(bits[k], max) + Weight(bits[k + 1..], max)
  {
    hide *;
    var none: seq<nat> := [];
    assert bits[k..] == [bits[k]] + bits[k + 1..] && [bits[k]] == none + [bits[k]];
    WeightConcat([bits[k]], bits[k + 1..], max);
    WeightNone(max);
    WeightSnoc(none, bits[k], max);
  }

  /** The next code stands behind the one before, and leaves room for the rest. */
  lemma NextCode(bits: seq<nat>, code: seq<nat>, max: nat)
    requires Ordered(bits, code, max) && 1 <= |code| < |bits| && Descending(bits) && KraftOk(bits, max)
    ensures var k := |code|; bits[k] <= bits[k - 1] <= max
    ensures var k := |code|; var c := Shr(code[k - 1], bits[k - 1] - bits[k]) + 1;
            && End(bits, code, k - 1, max) <= Shl(c, max - bits[k])
            && Start(bits, k, max) <= Shl(c, max - bits[k])
            && Shl(c, max - bits[k]) + Weight(bits[k..], max) <= Pow2(max)
  {
    hide *;
    var k := |code|;
    OrderedAt(bits, code, k - 1, max);
    PositionIs(bits, code, k - 1, max);
    DescendingAt(bits, k - 1, k);
    var p := LimitIsMultiple(bits, k, max);
    RoundUp(code[k - 1], bits[k - 1] - bits[k], max - bits[k - 1], p);
    StartNext(bits, k - 1, max);
  }

  lemma OrderedNext(bits: seq<nat>, code: seq<nat>, max: nat)
    requires Ordered(bits, code, max) && 1 <= |code| < |bits| && Descending(bits) && KraftOk(bits, max)
    ensures bits[|code|] <= bits[|code| - 1]
    ensures var k := |code|; Ordered(bits, code + [Shr(code[k - 1], bits[k - 1] - bits[k]) + 1], max)
  {
    hide *;
    var k := |code|;
    NextCode(bits, code, max);
    WeightFrom(bits, k, max);
    KraftIs(bits, max);
    var c := code + [Shr(code[k - 1], bits[k - 1] - bits[k]) + 1];
    PositionIs(bits, c, k, max);
    BoundedIs(bits, max);
    forall i | 0 <= i < |c|
      ensures Start(bits, i, max) <= Position(bits, c, i, max) && End(bits, c, i, max) + Weight(bits[i + 1..], max) <= Pow2(max)
    {
      if i < k { Kept(bits, code, c, i, max); }
    }
    forall i, j | 0 <= i < j < |c| ensures End(bits, c, i, max) <= Position(bits, c, j, max) {
      Kept(bits, code, c, i, max);
      if j < k {
        Kept(bits, code, c, j, max);
        OrderedPair(bits, code, i, j, max);
      } else if i < k - 1 {
        OrderedPair(bits, code, i, k - 1, max);
        OrderedAt(bits, code, k - 1, max);
      }
    }
    OrderedIs(bits, c, max);
  }

  lemma Kept(bits: seq<nat>, code: seq<nat>, c: seq<nat>, i: nat, max: nat)
    requires Ordered(bits, code, max) && i < |code| < |c| <= |bits| && code <= c
    ensures bits[i] <= max
    ensures Position(bits, c, i, max) == Position(bits, code, i, max) && End(bits, c, i, max) == End(bits, code, i, max)
    ensures Start(bits, i, max) <= Position(bits, c, i, max) && End(bits, c, i, max) + Weight(bits[i + 1..], max) <= Pow2(max)
  {
    hide *;
    OrderedAt(bits, code, i, max);
    PositionIs(bits, code, i, max);
    PositionIs(bits, c, i, max);
  }

  lemma OrderedFirst(bits: seq<nat>, max: nat)
    requires |bits| >= 1 && KraftOk(bits, max)
    ensures Ordered(bits, [0], max)
  {
    hide *;
    KraftIs(bits, max);
    BoundedIs(bits, max);
    PositionIs(bits, [0], 0, max);
    ShlZero(max - bits[0]);
    StartEnds(bits, max);
    WeightFrom(bits, 0, max);
    assert bits[0..] == bits;
    OrderedIs(bits, [0], max);
  }

  /** With the code space filled, there is nothing to round. */
  lemma OrderedPlaced(bits: seq<nat>, code: seq<nat>, max: nat)
    requires Ordered(bits, code, max) && |code| == |bits| && Weight(bits, max) == Pow2(max)
    ensures Placed(bits, code, max)
  {
    hide *;
    OrderedBound(bits, code, max);
    forall k | 0 <= k < |bits| ensures Shl(code[k], max - bits[k]) == Start(bits, k, max) {
      OrderedAt(bits, code, k, max);
      PositionIs(bits, code, k, max);
      WeightSplitAt(bits, k, max);
      WeightFrom(bits, k, max);
      StartIs(bits, k, max);
    }
    PlacedIs(bits, code, max);
  }

  lemma OrderedBound(bits: seq<nat>, code: seq<nat>, max: nat)
    requires Ordered(bits, code, max)
    ensures Bounded(bits, max) && forall k :: 0 <= k < |bits| ==> bits[k] <= max
  {}

  /** Codes for symbols already sorted longest first, of any lengths a prefix code can have. */
  method MakeCodes(bits: seq<nat>, code: array<nat>)
    requires 1 <= |bits| == code.Length && Descending(bits) && KraftOk(bits, bits[0])
    modifies code
    ensures code[0] == 0 && Ordered(bits, code[..], bits[0])
    ensures Complete(bits) ==> Placed(bits, code[..], bits[0])
  {
    hide *;
    var max := bits[0];
    KraftIs(bits, max);
    BoundedIs(bits, max);
    var len, c := bits[0], 0;
    code[0] := 0;
    OrderedFirst(bits, max);
    assert code[..1] == [0];
    var i := 1;
    while i < |bits|
      invariant 1 <= i <= |bits| && len == bits[i - 1] && c == code[i - 1] && code[0] == 0
      invariant Ordered(bits, code[..i], max)
    {
      ghost var was := code[..i];
      OrderedNext(bits, was, max);
      c := Shr(c, len - bits[i]);
      len := bits[i];
      c := c + 1;
      code[i] := c;
      i := i + 1;
      assert code[..i] == was + [c];
    }
    assert code[..] == code[..i];
    if Complete(bits) {
      CompleteAt(bits, max);
      OrderedPlaced(bits, code[..], max);
    }
  }

  lemma CompleteAt(bits: seq<nat>, max: nat)
    requires Complete(bits) && Bounded(bits, max)
    ensures Weight(bits, max) == Pow2(max)
  {}

  /** The lengths of `MakeTree`, sorted, are such. */
  lemma CompleteKraft(bits: seq<nat>)
    requires |bits| >= 1 && Descending(bits) && Complete(bits)
    ensures KraftOk(bits, bits[0])
  {
    hide *;
    forall k | 0 <= k < |bits| ensures bits[k] <= bits[0] { DescendingAt(bits, 0, k); }
    BoundedIs(bits, bits[0]);
    CompleteAt(bits, bits[0]);
    KraftIs(bits, bits[0]);
  }

  lemma PlacedIs(bits: seq<nat>, code: seq<nat>, max: nat)
    requires |code| == |bits| && Bounded(bits, max)
    ensures Placed(bits, code, max)
       <==> forall k :: 0 <= k < |bits| ==> Shl(code[k], max - bits[k]) == Start(bits, k, max)
  {
    hide Shl, Start;
  }

  lemma PlacedAt(bits: seq<nat>, code: seq<nat>, max: nat, k: nat)
    requires Placed(bits, code, max) && k < |bits|
    ensures |code| == |bits| && bits[k] <= max && Shl(code[k], max - bits[k]) == Start(bits, k, max)
    ensures Shl(code[k] + 1, max - bits[k]) == Start(bits, k + 1, max)
  {
    hide Weight, Shl, Start;
    StartNext(bits, k, max);
    ShareShl(bits[k], bits[k], max);
    PowZero();
    ShlPlus(code[k], 1, max - bits[k]);
  }

  /** Every code fits its length. */
  lemma CodeFits(bits: seq<nat>, code: seq<nat>, max: nat, k: nat)
    requires Ordered(bits, code, max) && k < |code|
    ensures |code| <= |bits| && code[k] < Pow2(bits[k])
  {
    hide *;
    OrderedAt(bits, code, k, max);
    PositionIs(bits, code, k, max);
    ShareShl(0, bits[k], max);
    ShareZero(max);
    ShlMonoBack(code[k] + 1, Pow2(bits[k]), max - bits[k]);
  }

  lemma PlacedOrdered(bits: seq<nat>, code: seq<nat>, max: nat)
    requires Placed(bits, code, max) && Weight(bits, max) <= Pow2(max)
    ensures Ordered(bits, code, max) && |code| == |bits|
  {
    hide *;
    PlacedSize(bits, code, max);
    PlacedBound(bits, code, max);
    forall k | 0 <= k < |code|
      ensures Start(bits, k, max) <= Position(bits, code, k, max) && End(bits, code, k, max) + Weight(bits[k + 1..], max) <= Pow2(max)
    {
      PlacedAt(bits, code, max, k);
      PositionIs(bits, code, k, max);
      WeightSplitAt(bits, k + 1, max);
      StartIs(bits, k + 1, max);
    }
    forall k, l | 0 <= k < l < |code| ensures End(bits, code, k, max) <= Position(bits, code, l, max) {
      PlacedAt(bits, code, max, k);
      PlacedAt(bits, code, max, l);
      PositionIs(bits, code, k, max);
      PositionIs(bits, code, l, max);
      StartMono(bits, k + 1, l, max);
    }
    OrderedIs(bits, code, max);
  }

  function Words(bits: seq<nat>, code: seq<nat>): (w: seq<Bits>)
    requires |bits| == |code|
    ensures |w| == |bits| && forall k :: 0 <= k < |bits| ==> w[k] == Enc(code[k], bits[k])
  {
    if bits == [] then []
    else Words(bits[..|bits| - 1], code[..|bits| - 1]) + [Enc(code[|bits| - 1], bits[|bits| - 1])]
  }

  /** A word that begins with another lies inside its share of the space. */
  lemma PrefixInside(a: nat, m: nat, b: nat, n: nat, max: nat)
    requires a < Pow2(m) && b < Pow2(n) && n <= max && Enc(a, m) <= Enc(b, n)
    ensures m <= n && Shl(a, max - m) <= Shl(b, max - n) && Shl(b + 1, max - n) <= Shl(a + 1, max - m)
  {
    hide *;
    var e: nat := n - m;
    EncSplit(b, m, e);
    assert Enc(b, m + e)[..m] == Enc(Shr(b, e), m);
    assert Enc(a, m) == Enc(b, n)[..m];
    ShrBound(b, m, e);
    EncInjective(a, Shr(b, e), m);
    Recompose(b, e);
    LowBound(b, e);
    ShlPlus(a, 1, e);
    ShlPow2(e);
    ShlMono(Shl(a, e), b, max - n);
    ShlMono(b + 1, Shl(a + 1, e), max - n);
    ShlShl(a, e, max - n);
    ShlShl(a + 1, e, max - n);
  }

  lemma LowBound(v: nat, n: nat)
    ensures Low(v, n) < Pow2(n)
  {}

  /** No word begins with another one. */
  lemma CodesPrefixFree(bits: seq<nat>, code: seq<nat>, max: nat)
    requires Ordered(bits, code, max) && |code| == |bits|
    ensures PrefixFree(Words(bits, code))
  {
    hide Weight, Ordered, Enc, Start, Shl, Pow2, Words, Bounded;
    var w := Words(bits, code);
    forall i, j | 0 <= i < |w| && 0 <= j < |w| && i != j ensures !(w[i] <= w[j]) {
      if w[i] <= w[j] { NotInside(bits, code, max, i, j); }
    }
  }

  lemma PlacedSize(bits: seq<nat>, code: seq<nat>, max: nat)
    requires Placed(bits, code, max)
    ensures |code| == |bits|
  {}

  lemma NotInside(bits: seq<nat>, code: seq<nat>, max: nat, i: nat, j: nat)
    requires Ordered(bits, code, max) && i < |bits| == |code| && j < |bits|
    requires Enc(code[i], bits[i]) <= Enc(code[j], bits[j])
    ensures i == j
  {
    hide *;
    CodeFits(bits, code, max, i);
    CodeFits(bits, code, max, j);
    OrderedAt(bits, code, i, max);
    OrderedAt(bits, code, j, max);
    PositionIs(bits, code, i, max);
    PositionIs(bits, code, j, max);
    PrefixInside(code[i], bits[i], code[j], bits[j], max);
    SharePositive(bits, j, max);
    if i < j { OrderedPair(bits, code, i, j, max); }
    if j < i { OrderedPair(bits, code, j, i, max); }
  }

  lemma SharePositive(bits: seq<nat>, j: nat, max: nat)
    requires j < |bits| && bits[j] <= max
    ensures Share(bits[j], max) >= 1
  {}

  // ----- sorting first -----

  lemma {:induction false} WeightPermuted(a: seq<nat>, b: seq<nat>, max: nat)
    requires multiset(a) == multiset(b)
    ensures Weight(a, max) == Weight(b, max)
    decreases |b|
  {
    hide *;
    if b == [] {
      assert |multiset(a)| == 0;
      assert a == [];
    } else {
      var n := |b| - 1;
      var x := b[n];
      assert x in multiset(b);
      var p :| 0 <= p < |a| && a[p] == x;
      var u, v := a[..p], a[p + 1..];
      assert a == u + ([x] + v);
      assert b == b[..n] + [x];
      assert multiset(u + v) == multiset(a) - multiset{x};
      assert multiset(b[..n]) == multiset(b) - multiset{x};
      WeightPermuted(u + v, b[..n], max);
      WeightConcat(u, [x] + v, max);
      WeightConcat([x], v, max);
      WeightConcat(u, v, max);
      WeightConcat(b[..n], [x], max);
    }
  }

  /** Sorting the symbols keeps the lengths complete. */
  lemma CompletePermuted(a: seq<nat>, b: seq<nat>)
    requires multiset(a) == multiset(b) && Complete(a)
    ensures Complete(b)
  {
    hide Weight, Pow2;
    forall max: nat | Bounded(b, max) ensures Weight(b, max) == Pow2(max) {
      forall i | 0 <= i < |a| ensures a[i] <= max {
        assert a[i] in multiset(a);
        assert a[i] in multiset(b);
        var j :| 0 <= j < |b| && b[j] == a[i];
      }
      WeightPermuted(a, b, max);
    }
  }

  // ----- the decoding table -----

  predicate Fits16(bits: seq<nat>) { forall k :: 0 <= k < |bits| ==> bits[k] <= 16 }

  predicate NoneEmpty(bits: seq<nat>) { forall k :: 0 <= k < |bits| ==> 1 <= bits[k] }

  lemma NoneEmptyIs(bits: seq<nat>)
    requires forall k :: 0 <= k < |bits| ==> 1 <= bits[k]
    ensures NoneEmpty(bits)
  {}

  lemma LengthAt(bits: seq<nat>, k: nat)
    requires NoneEmpty(bits) && Fits16(bits) && k < |bits|
    ensures 1 <= bits[k] <= 16
  {}

  /** The table printed for the decoder: the symbols in reverse, each code left-justified in 16 bits. */
  function DecodingTable(bits: seq<nat>, code: seq<nat>, value: seq<int>): (t: Table)
    requires |bits| == |code| == |value| && Fits16(bits)
    ensures |t| == |bits|
  {
    if bits == [] then []
    else
      var n := |bits| - 1;
      [Entry(Shl(code[n], 16 - bits[n]), bits[n], value[n])] + DecodingTable(bits[..n], code[..n], value[..n])
  }

  lemma {:induction false} TableAt(bits: seq<nat>, code: seq<nat>, value: seq<int>, i: nat)
    requires i < |bits| == |code| == |value| && Fits16(bits)
    ensures DecodingTable(bits, code, value)[|bits| - 1 - i] == Entry(Shl(code[i], 16 - bits[i]), bits[i], value[i])
  {
    hide Shl;
    var n := |bits| - 1;
    if i < n { TableAt(bits[..n], code[..n], value[..n], i); }
  }

  lemma {:induction false} LowShl(v: nat, n: nat)
    ensures Low(Shl(v, n), n) == 0
  {
    if n > 0 {
      var h := Shl(v, n - 1);
      LowShl(v, n - 1);
      assert Shl(v, n) == 2 * h && (2 * h) / 2 == h && (2 * h) % 2 == 0;
    }
  }

  /** The entry of a word: it starts where the word's share does. */
  lemma EntryAt(bits: seq<nat>, code: seq<nat>, value: seq<int>, i: nat)
    requires i < |bits| == |value| && Placed(bits, code, 16) && Weight(bits, 16) <= Pow2(16)
    ensures |code| == |bits| && Fits16(bits)
    ensures var e := DecodingTable(bits, code, value)[|bits| - 1 - i];
            && e.code == Start(bits, i, 16) < 0x1_0000 && e.length == bits[i] && e.value == value[i]
            && Low(e.code, 16 - bits[i]) == 0
  {
    hide *;
    PlacedFits(bits, code);
    TableAt(bits, code, value, i);
    PlacedAt(bits, code, 16, i);
    LowShl(code[i], 16 - bits[i]);
    StartLess(bits, i, |bits|, 16);
    StartEnds(bits, 16);
    Pow2Facts();
  }

  lemma StartLess(bits: seq<nat>, i: nat, j: nat, max: nat)
    requires i < j <= |bits| && bits[i] <= max
    ensures Start(bits, i, max) < Start(bits, j, max)
  {
    hide *;
    StartNext(bits, i, max);
    SharePositive(bits, i, max);
    StartMono(bits, i + 1, j, max);
  }

  lemma EntriesFit(bits: seq<nat>, code: seq<nat>, value: seq<int>)
    requires |value| == |bits| && Placed(bits, code, 16) && Weight(bits, 16) <= Pow2(16) && NoneEmpty(bits)
    ensures |code| == |bits| && Fits16(bits)
    ensures var t := DecodingTable(bits, code, value);
            forall k :: 0 <= k < |t| ==>
              1 <= t[k].length <= 16 && t[k].code < 0x1_0000 && Low(t[k].code, 16 - t[k].length) == 0
  {
    hide *;
    PlacedFits(bits, code);
    var n, t := |bits|, DecodingTable(bits, code, value);
    forall k | 0 <= k < n
      ensures 1 <= t[k].length <= 16 && t[k].code < 0x1_0000 && Low(t[k].code, 16 - t[k].length) == 0
    {
      LengthAt(bits, n - 1 - k);
      EntryAt(bits, code, value, n - 1 - k);
    }
  }

  lemma EntriesDescend(bits: seq<nat>, code: seq<nat>, value: seq<int>, j: nat, k: nat)
    requires |value| == |bits| && Placed(bits, code, 16) && Weight(bits, 16) <= Pow2(16) && j < k < |bits|
    ensures |code| == |bits| && Fits16(bits)
    ensures var t := DecodingTable(bits, code, value); t[k].code < t[j].code
  {
    hide *;
    PlacedFits(bits, code);
    var n := |bits|;
    EntryAt(bits, code, value, n - 1 - k);
    EntryAt(bits, code, value, n - 1 - j);
    PlacedAt(bits, code, 16, n - 1 - k);
    StartLess(bits, n - 1 - k, n - 1 - j, 16);
  }

  /** It is a table the decoder's scan and lookup tables are made for. */
  lemma TableWellFormed(bits: seq<nat>, code: seq<nat>, value: seq<int>)
    requires 1 <= |bits| <= 256 && |value| == |bits| && Placed(bits, code, 16) && Weight(bits, 16) <= Pow2(16)
    requires NoneEmpty(bits)
    ensures |code| == |bits| && Fits16(bits)
    ensures WellFormed(DecodingTable(bits, code, value))
  {
    hide *;
    EntriesFit(bits, code, value);
    var t := DecodingTable(bits, code, value);
    forall j, k | 0 <= j < k < |t| ensures t[k].code < t[j].code { EntriesDescend(bits, code, value, j, k); }
    EntryAt(bits, code, value, 0);
    StartEnds(bits, 16);
    WellFormedIs(t);
  }

  lemma PlacedBound(bits: seq<nat>, code: seq<nat>, max: nat)
    requires Placed(bits, code, max)
    ensures (forall k :: 0 <= k < |bits| ==> bits[k] <= max) && Bounded(bits, max)
  {}

  lemma PlacedFits(bits: seq<nat>, code: seq<nat>)
    requires Placed(bits, code, 16)
    ensures |code| == |bits| && Fits16(bits)
  {}

  lemma WellFormedIs(t: Table)
    requires 0 < |t| <= 256 && t[|t| - 1].code == 0
    requires forall j, k :: 0 <= j < k < |t| ==> t[k].code < t[j].code
    requires forall j :: 0 <= j < |t| ==>
      1 <= t[j].length <= 16 && t[j].code < 0x1_0000 && Low(t[j].code, 16 - t[j].length) == 0
    ensures WellFormed(t)
  {
    hide Low;
  }

  /** And on every window that begins with a word, the scan finds that word's length and value. */
  lemma ScanDecodes(bits: seq<nat>, code: seq<nat>, value: seq<int>, i: nat, lo: nat)
    requires 1 <= |bits| <= 256 && |value| == |bits| && Placed(bits, code, 16) && Weight(bits, 16) <= Pow2(16)
    requires NoneEmpty(bits) && i < |bits| && bits[i] <= 16 && lo < Pow2(16 - bits[i])
    ensures |code| == |bits| && Fits16(bits)
    ensures WellFormed(DecodingTable(bits, code, value))
    ensures PlainScan(DecodingTable(bits, code, value), lo + Shl(code[i], 16 - bits[i])) == (bits[i], value[i])
  {
    hide *;
    TableWellFormed(bits, code, value);
    var n, t := |bits|, DecodingTable(bits, code, value);
    var w := lo + Shl(code[i], 16 - bits[i]);
    InShare(bits, code, i, lo);
    AllAbove(bits, code, value, i, w);
    EntryAt(bits, code, value, i);
    ScanIs(t, n - 1 - i, w);
  }

  lemma InShare(bits: seq<nat>, code: seq<nat>, i: nat, lo: nat)
    requires Placed(bits, code, 16) && i < |bits| == |code| && bits[i] <= 16 && lo < Pow2(16 - bits[i])
    ensures Start(bits, i, 16) <= lo + Shl(code[i], 16 - bits[i]) < Start(bits, i + 1, 16)
  {
    hide *;
    PlacedAt(bits, code, 16, i);
    ShlPlus(code[i], 1, 16 - bits[i]);
    ShlPow2(16 - bits[i]);
  }

  lemma Above(bits: seq<nat>, code: seq<nat>, value: seq<int>, i: nat, o: nat, w: nat)
    requires i < o < |bits| == |value| && Placed(bits, code, 16) && Weight(bits, 16) <= Pow2(16)
    requires w < Start(bits, i + 1, 16)
    ensures |code| == |bits| && Fits16(bits)
    ensures DecodingTable(bits, code, value)[|bits| - 1 - o].code > w
  {
    hide *;
    EntryAt(bits, code, value, o);
    StartMono(bits, i + 1, o, 16);
  }

  lemma AllAbove(bits: seq<nat>, code: seq<nat>, value: seq<int>, i: nat, w: nat)
    requires i < |bits| == |value| && Placed(bits, code, 16) && Weight(bits, 16) <= Pow2(16)
    requires w < Start(bits, i + 1, 16)
    ensures |code| == |bits| && Fits16(bits)
    ensures forall k :: 0 <= k < |bits| - 1 - i ==> DecodingTable(bits, code, value)[k].code > w
  {
    hide *;
    PlacedFits(bits, code);
    forall k | 0 <= k < |bits| - 1 - i ensures DecodingTable(bits, code, value)[k].code > w {
      Above(bits, code, value, i, |bits| - 1 - k, w);
    }
  }

  /** The placement does not depend on the length it is measured at. */
  lemma PlacedWider(bits: seq<nat>, code: seq<nat>, max: nat, m: nat)
    requires Placed(bits, code, max) && max <= m
    ensures Placed(bits, code, m)
  {
    hide *;
    PlacedSize(bits, code, max);
    PlacedBound(bits, code, max);
    BoundedIs(bits, m);
    forall k | 0 <= k < |bits| ensures Shl(code[k], m - bits[k]) == Start(bits, k, m) {
      PlacedAt(bits, code, max, k);
      ShlShl(code[k], max - bits[k], m - max);
      StartIs(bits, k, max);
      StartIs(bits, k, m);
      BoundedIs(bits[..k], max);
      WeightScale(bits[..k], max, m - max);
    }
    PlacedIs(bits, code, m);
  }

  /** With two words or more, none is empty: it would leave no space. */
  lemma NoneIsEmpty(bits: seq<nat>, max: nat, k: nat)
    requires |bits| >= 2 && Complete(bits) && Bounded(bits, max) && k < |bits|
    ensures 1 <= bits[k]
  {
    hide *;
    var s := Shares(bits, max);
    var o := if k == 0 then 1 else 0;
    BoundedIs(bits, max);
    CompleteAt(bits, max);
    WeightIs(bits, max);
    SumWithout(s, if k < o then k else o, if k < o then o else k);
    ShareAt(bits, max, k);
    ShareAt(bits, max, o);
    SharePositive(bits, o, max);
    ShareZero(max);
  }

  /** From the lengths of a best code to the decoder: what `MakeCodes` numbers, the decoding table reads back. */
  lemma BuiltCodeDecodes(bits: seq<nat>, code: seq<nat>, value: seq<int>, i: nat, lo: nat)
    requires 2 <= |bits| <= 256 && |value| == |bits| && Complete(bits) && Placed(bits, code, bits[0]) && bits[0] <= 16
    requires i < |bits| && bits[i] <= 16 && lo < Pow2(16 - bits[i])
    ensures |code| == |bits| && PrefixFree(Words(bits, code)) && Fits16(bits)
    ensures WellFormed(DecodingTable(bits, code, value))
    ensures PlainScan(DecodingTable(bits, code, value), lo + Shl(code[i], 16 - bits[i])) == (bits[i], value[i])
  {
    hide *;
    PlacedWider(bits, code, bits[0], 16);
    PlacedBound(bits, code, 16);
    CompleteAt(bits, 16);
    assert NoneEmpty(bits) by {
      forall k | 0 <= k < |bits| ensures 1 <= bits[k] { NoneIsEmpty(bits, 16, k); }
      NoneEmptyIs(bits);
    }
    PlacedOrdered(bits, code, 16);
    CodesPrefixFree(bits, code, 16);
    ScanDecodes(bits, code, value, i, lo);
  }

  lemma ScanIs(t: Table, at: nat, w: nat)
    requires WellFormed(t) && at < |t| && t[at].code <= w && forall k :: 0 <= k < at ==> t[k].code > w
    ensures PlainScan(t, w) == (t[at].length, t[at].value)
  {}
}
