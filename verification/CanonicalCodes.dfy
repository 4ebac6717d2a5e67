/** From symbol counts to a code: lengths, symbols in canonical order, and their codes. */
module CanonicalCodes {
  import opened BitStrings
  import opened Kraft
  import opened HuffmanTrees
  import opened HuffmanCodes

  datatype Sym = Sym(symbol: nat, bits: nat)

  /** The order of `_Huffman_CompBits`: longer codes first, and by symbol among equals. */
  predicate Before(a: Sym, b: Sym) { a.bits > b.bits || (a.bits == b.bits && a.symbol <= b.symbol) }

  ghost predicate Sorted(s: seq<Sym>) { forall i, j :: 0 <= i < j < |s| ==> Before(s[i], s[j]) }

  function BitsOf(s: seq<Sym>): (b: seq<nat>)
    ensures |b| == |s| && forall i :: 0 <= i < |s| ==> b[i] == s[i].bits
  {
    if s == [] then [] else BitsOf(s[..|s| - 1]) + [s[|s| - 1].bits]
  }

  /** Every symbol with its length. */
  function Labelled(bits: seq<nat>): (s: seq<Sym>)
    ensures |s| == |bits| && forall i :: 0 <= i < |bits| ==> s[i] == Sym(i, bits[i])
  {
    if bits == [] then [] else Labelled(bits[..|bits| - 1]) + [Sym(|bits| - 1, bits[|bits| - 1])]
  }

  lemma BitsOfLabelled(bits: seq<nat>)
    ensures BitsOf(Labelled(bits)) == bits
  {}

  /** The library's sort, whose result the order determines: one symbol after the other is put in its place. */
  method Sort(sym: seq<Sym>) returns (r: seq<Sym>)
    ensures multiset(r) == multiset(sym) && Sorted(r)
  {
    r := [];
    var n := 0;
    assert sym[..0] == [];
    while n < |sym|
      invariant 0 <= n <= |sym| && multiset(r) == multiset(sym[..n]) && Sorted(r)
    {
      assert sym[..n + 1] == sym[..n] + [sym[n]];
      r := Insert(r, sym[n]);
      n := n + 1;
    }
    assert sym[..n] == sym;
  }

  method Insert(s: seq<Sym>, x: Sym) returns (r: seq<Sym>)
    requires Sorted(s)
    ensures multiset(r) == multiset(s) + multiset{x} && Sorted(r)
  {
    var i := 0;
    while i < |s| && Before(s[i], x)
      invariant 0 <= i <= |s| && forall k :: 0 <= k < i ==> Before(s[k], x)
    {
      i := i + 1;
    }
    r := s[..i] + [x] + s[i..];
    assert s == s[..i] + s[i..];
    Inserted(s, x, i);
  }

  lemma Inserted(s: seq<Sym>, x: Sym, i: nat)
    requires Sorted(s) && i <= |s| && (forall k :: 0 <= k < i ==> Before(s[k], x)) && (i < |s| ==> !Before(s[i], x))
    ensures Sorted(s[..i] + [x] + s[i..])
  {
    var r := s[..i] + [x] + s[i..];
    forall j, k | 0 <= j < k < |r| ensures Before(r[j], r[k]) {
      if j == i {
        assert r[k] == s[k - 1];
        if k - 1 > i { assert Before(s[i], s[k - 1]); }
      }
    }
  }

  lemma SortedDescends(s: seq<Sym>)
    requires Sorted(s)
    ensures Descending(BitsOf(s))
  {
    forall i, j | 0 <= i < j < |s| ensures BitsOf(s)[j] <= BitsOf(s)[i] {
      assert Before(s[i], s[j]);
    }
  }

  /** The same symbols have the same lengths. */
  lemma {:induction false} BitsPermuted(a: seq<Sym>, b: seq<Sym>)
    requires multiset(a) == multiset(b)
    ensures multiset(BitsOf(a)) == multiset(BitsOf(b))
    decreases |b|
  {
    hide *;
    if b == [] {
      assert |multiset(a)| == 0;
      assert a == [];
    } else {
      var x := b[|b| - 1];
      var c := b[..|b| - 1];
      assert b == c + [x];
      var u, v := Around(a, c, x);
      BitsPermuted(u + v, c);
      BitsConcat(u, [x] + v);
      BitsConcat([x], v);
      BitsConcat(u, v);
      BitsConcat(c, [x]);
    }
  }

  lemma Around(a: seq<Sym>, c: seq<Sym>, x: Sym) returns (u: seq<Sym>, v: seq<Sym>)
    requires multiset(a) == multiset(c) + multiset{x}
    ensures a == u + ([x] + v) && multiset(u + v) == multiset(c)
  {
    assert x in multiset(a);
    var p :| 0 <= p < |a| && a[p] == x;
    u, v := a[..p], a[p + 1..];
    assert a == u + ([x] + v);
    assert multiset(u + v) == multiset(a) - multiset{x};
  }

  lemma BitsConcat(a: seq<Sym>, b: seq<Sym>)
    ensures BitsOf(a + b) == BitsOf(a) + BitsOf(b)
  {
    hide BitsOf;
  }

  /** `_Huffman_MakeCodes`, with the sort it begins with. */
  method SortAndNumber(bits: seq<nat>) returns (sym: seq<Sym>, code: array<nat>)
    requires |bits| >= 1 && Complete(bits)
    ensures |sym| == |bits| == code.Length && Sorted(sym) && multiset(sym) == multiset(Labelled(bits))
    ensures Complete(BitsOf(sym)) && Placed(BitsOf(sym), code[..], sym[0].bits)
  {
    hide *;
    sym := Sort(Labelled(bits));
    SameSize(sym, Labelled(bits));
    ghost var b := BitsOf(sym);
    BitsPermuted(Labelled(bits), sym);
    BitsOfLabelled(bits);
    CompletePermuted(bits, b);
    SortedDescends(sym);
    CompleteKraft(b);
    code := new nat[|sym|];
    MakeCodes(BitsOf(sym), code);
  }

  lemma SameSize(a: seq<Sym>, b: seq<Sym>)
    requires multiset(a) == multiset(b)
    ensures |a| == |b|
  {
    assert |multiset(a)| == |a| && |multiset(b)| == |b|;
  }

  /** All of it, for two symbols or more: every symbol gets one code, no code begins with another, and no prefix code for
      these counts is shorter. */
  method HuffmanCode(ws: seq<nat>) returns (bits: array<nat>, sym: seq<Sym>, code: array<nat>)
    requires |ws| >= 2
    ensures |ws| == bits.Length == |sym| == code.Length && Sorted(sym) && multiset(sym) == multiset(Labelled(bits[..]))
    ensures PrefixFree(Words(BitsOf(sym), code[..])) && Complete(BitsOf(sym))
    ensures Placed(BitsOf(sym), code[..], sym[0].bits)
    ensures Lower(ws, Cost(ws, bits[..]))
  {
    hide *;
    bits := new nat[|ws|];
    MakeTree(ws, bits);
    sym, code := SortAndNumber(bits[..]);
    FirstIsMost(sym, code[..]);
    PlacedOrdered(BitsOf(sym), code[..], sym[0].bits);
    CodesPrefixFree(BitsOf(sym), code[..], sym[0].bits);
  }

  lemma FirstIsMost(sym: seq<Sym>, code: seq<nat>)
    requires |sym| >= 1 && Complete(BitsOf(sym)) && Placed(BitsOf(sym), code, sym[0].bits)
    ensures Weight(BitsOf(sym), sym[0].bits) <= Pow2(sym[0].bits)
  {
    hide *;
    PlacedBound(BitsOf(sym), code, sym[0].bits);
    CompleteAt(BitsOf(sym), sym[0].bits);
  }
}
