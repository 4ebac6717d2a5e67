/** The quantised samples of one band and channel: 36 values at one of 15 resolutions. */
module Sv8Samples {
  import opened BitStrings
  import opened Integers
  import opened Enumerative
  import opened Codebooks

  /** Half the number of quantiser steps; the encoder's samples run over `0..2 * Dc`, the decoder's over
      `-Dc..Dc`. */
  function Dc(res: int): nat
    requires 1 <= res <= 15
  {
    match res
    case 1 => 1 case 2 => 2 case 3 => 3 case 4 => 4 case 5 => 7 case 6 => 15 case 7 => 31 case 8 => 63
    case 9 => 127 case 10 => 255 case 11 => 511 case 12 => 1023 case 13 => 2047 case 14 => 4095 case _ => 8191
  }

  /** Up to resolution 4 the numbers of steps are 3, 5, 7 and 9, from there on one less than a power of two. */
  lemma StepsAre(res: int)
    requires 1 <= res <= 15
    ensures 2 * Dc(res) + 1 == if res <= 4 then 2 * res + 1 else Pow2(res - 1) - 1
  {
    Pow2Facts();
    StepPowers();
  }

  lemma StepPowers()
    ensures Pow2(4) == 16 && Pow2(5) == 32 && Pow2(6) == 64 && Pow2(7) == 128 && Pow2(8) == 256 && Pow2(9) == 512
    ensures Pow2(10) == 1024 && Pow2(11) == 2048 && Pow2(12) == 4096 && Pow2(13) == 8192 && Pow2(14) == 16384
  {
    assert Pow2(7) == 128;
    assert Pow2(11) == 2048;
  }

  ghost predicate Quantised(res: int, q: seq<int>)
    requires 1 <= res <= 15
  {
    forall k :: 0 <= k < |q| ==> 0 <= q[k] <= 2 * Dc(res)
  }

  function Decoded(res: int, q: seq<int>): (d: seq<int>)
    requires 1 <= res <= 15
    ensures |d| == |q|
  {
    if q == [] then [] else [q[0] - Dc(res)] + Decoded(res, q[1..])
  }

  lemma {:induction false} DecodedConcat(res: int, a: seq<int>, b: seq<int>)
    requires 1 <= res <= 15
    ensures Decoded(res, a + b) == Decoded(res, a) + Decoded(res, b)
  {
    if a == [] {
      assert a + b == b;
    } else {
      hide Dc;
      assert (a + b)[1..] == a[1..] + b;
      DecodedConcat(res, a[1..], b);
    }
  }

  /** Each decoded sample is the encoder's, moved by the offset. */
  lemma {:induction false} DecodedAt(res: int, q: seq<int>, k: nat)
    requires 1 <= res <= 15 && k < |q|
    ensures Decoded(res, q)[k] == q[k] - Dc(res)
  {
    if k > 0 { DecodedAt(res, q[1..], k - 1); }
  }

  // ----- masks -----

  function Not(b: Bits): (c: Bits)
    ensures |c| == |b|
  {
    if b == [] then [] else [!b[0]] + Not(b[1..])
  }

  lemma {:induction false} NotNot(b: Bits)
    ensures Not(Not(b)) == b && Ones(Not(b)) == |b| - Ones(b)
  {
    if b != [] {
      var c := Not(b);
      assert c[1..] == Not(b[1..]);
      NotNot(b[1..]);
      assert b == [b[0]] + b[1..];
    }
  }

  /** The side of the mask with fewer ones is the one that is sent. */
  function Minority(b: Bits): Bits { if 2 * Ones(b) > |b| then Not(b) else b }

  function MaskBits(b: Bits): Bits
    requires |b| <= 32
  {
    NotNot(b);
    EnumBits(Minority(b))
  }

  /** Decodes a mask whose number of ones is already known. */
  function MaskDec(s: Bits, cnt: nat, tot: nat): (p: Parsed<Bits>)
    requires cnt <= tot <= 32
    ensures p.Got? ==> |p.value| == tot
    ensures p.Got? ==> |p.rest| <= |s|
  {
    var (b, s1) :- if cnt != 0 && cnt != tot then EnumDec(s, if cnt <= tot - cnt then cnt else tot - cnt, tot)
                   else Got(Enc(0, tot), s);
    Got(if 2 * cnt > tot then Not(b) else b, s1)
  }

  lemma {:induction false} NoOnes(b: Bits)
    requires Ones(b) == 0
    ensures b == Enc(0, |b|)
  {
    if b != [] {
      NoOnes(b[1..]);
      EncSplit(0, 1, |b| - 1);
      ShrZeroBit(|b| - 1);
      assert b == [b[0]] + b[1..];
    }
  }

  lemma ShrZeroBit(n: nat)
    ensures Enc(Shr(0, n), 1) == [false]
  {
    BitReading.ShrZero(n);
    assert Enc(0, 1) == Enc(0, 0) + [false];
  }

  lemma MinorityFacts(b: Bits)
    ensures var m, cnt, tot := Minority(b), Ones(b), |b|;
            && |m| == tot && Ones(m) == (if cnt <= tot - cnt then cnt else tot - cnt)
            && b == (if 2 * cnt > tot then Not(m) else m)
  {
    NotNot(b);
  }

  lemma MaskDecIs(s: Bits, cnt: nat, tot: nat)
    requires cnt <= tot <= 32
    ensures cnt == 0 || cnt == tot ==>
              MaskDec(s, cnt, tot) == Got(if 2 * cnt > tot then Not(Enc(0, tot)) else Enc(0, tot), s)
    ensures 0 < cnt < tot ==>
              var p := EnumDec(s, if cnt <= tot - cnt then cnt else tot - cnt, tot);
              p.Got? ==> MaskDec(s, cnt, tot) == Got(if 2 * cnt > tot then Not(p.value) else p.value, p.rest)
  {}

  lemma NoMaskBits(m: Bits, rest: Bits)
    requires |m| <= 32 && Ones(m) == 0
    ensures EnumBits(m) + rest == rest
  {}

  lemma MaskBitsIs(b: Bits)
    requires |b| <= 32
    ensures |Minority(b)| == |b| && Ones(Minority(b)) <= 16
    ensures Ones(Minority(b)) < |Minority(b)| + (if Minority(b) == [] then 1 else 0)
    ensures MaskBits(b) == EnumBits(Minority(b))
  {
    NotNot(b);
  }

  lemma MaskRoundTrip(b: Bits, rest: Bits)
    requires |b| <= 32
    ensures MaskDec(MaskBits(b) + rest, Ones(b), |b|) == Got(b, rest)
  {
    hide *;
    var m := Minority(b);
    MinorityFacts(b);
    MaskBitsIs(b);
    MaskDecIs(MaskBits(b) + rest, Ones(b), |b|);
    if Ones(m) == 0 {
      NoOnes(m);
      NoMaskBits(m, rest);
    } else {
      EnumRoundTrip(m, rest);
    }
  }

  // ----- resolution 1: a mask of nonzero samples, and their signs -----

  function Nonzero(q: seq<int>): (b: Bits)
    ensures |b| == |q|
  {
    if q == [] then [] else [q[0] != 1] + Nonzero(q[1..])
  }

  function Signs(q: seq<int>): (b: Bits)
    ensures |b| == Ones(Nonzero(q))
  {
    if q == [] then []
    else
      assert Nonzero(q)[1..] == Nonzero(q[1..]);
      (if q[0] != 1 then [q[0] >= 2] else []) + Signs(q[1..])
  }

  function SignsDec(s: Bits, mask: Bits): (p: Parsed<seq<int>>)
    ensures p.Got? ==> |p.value| == |mask|
    ensures p.Got? ==> |p.rest| <= |s|
  {
    if mask == [] then Got([], s)
    else if mask[0] then
      var (b, s1) :- Take(s, 1);
      var (q, s2) :- SignsDec(s1, mask[1..]);
      Got([2 * b - 1] + q, s2)
    else
      var (q, s1) :- SignsDec(s, mask[1..]);
      Got([0] + q, s1)
  }

  lemma TakeOne(v: bool, rest: Bits)
    ensures Take([v] + rest, 1) == Got(Bit(v), rest)
  {
    TakePrefix([v], rest);
    ValOne(v);
  }

  lemma SignsStep(q: seq<int>, rest: Bits)
    requires q != [] && Quantised(1, q)
    ensures Nonzero(q) == [q[0] != 1] + Nonzero(q[1..])
    ensures Decoded(1, q) == [q[0] - 1] + Decoded(1, q[1..])
    ensures q[0] != 1 ==> Signs(q) + rest == [q[0] >= 2] + (Signs(q[1..]) + rest)
    ensures q[0] == 1 ==> Signs(q) + rest == Signs(q[1..]) + rest
    ensures Quantised(1, q[1..]) && q[0] - 1 == (if q[0] == 1 then 0 else 2 * Bit(q[0] >= 2) - 1)
  {
    assert 0 <= q[0] <= 2;
    var head := if q[0] != 1 then [q[0] >= 2] else [];
    assert Signs(q) == head + Signs(q[1..]);
    assert [] + Signs(q[1..]) == Signs(q[1..]);
    hide Signs, Nonzero;
    Assoc([q[0] >= 2], Signs(q[1..]), rest);
  }

  lemma SignsDecStep(s: Bits, mask: Bits, on: bool, bit: bool, tail: Bits, more: Parsed<seq<int>>)
    requires on ==> s == [bit] + tail
    requires !on ==> s == tail
    requires more == SignsDec(tail, mask) && more.Got?
    ensures SignsDec(s, [on] + mask) == Got([if on then 2 * Bit(bit) - 1 else 0] + more.value, more.rest)
  {
    assert ([on] + mask)[1..] == mask;
    if on { TakeOne(bit, tail); }
  }

  lemma {:induction false} SignsRoundTrip(q: seq<int>, rest: Bits)
    requires Quantised(1, q)
    ensures SignsDec(Signs(q) + rest, Nonzero(q)) == Got(Decoded(1, q), rest)
  {
    if q == [] {
      assert Signs(q) + rest == rest;
    } else {
      hide *;
      SignsStep(q, rest);
      SignsRoundTrip(q[1..], rest);
      SignsDecStep(Signs(q) + rest, Nonzero(q[1..]), q[0] != 1, q[0] >= 2, Signs(q[1..]) + rest,
                   Got(Decoded(1, q[1..]), rest));
    }
  }

  function HalfBits(q1: Book, q: seq<int>): Bits
    requires |q| == 18 && |q1.enc| == 19
  {
    Word(q1, Ones(Nonzero(q))) + (MaskBits(Nonzero(q)) + Signs(q))
  }

  ghost function HalfDec(q1: Book, s: Bits): (p: Parsed<seq<int>>)
    requires |q1.enc| == 19
    ensures p.Got? ==> |p.value| == 18
    ensures p.Got? ==> |p.rest| <= |s|
  {
    var (cnt, s1) :- BookDec(q1, s);
    var (mask, s2) :- MaskDec(s1, cnt, 18);
    SignsDec(s2, mask)
  }

  lemma HalfRoundTrip(q1: Book, q: seq<int>, rest: Bits)
    requires BookValid(q1) && |q| == 18 && |q1.enc| == 19 && Quantised(1, q)
    ensures HalfDec(q1, HalfBits(q1, q) + rest) == Got(Decoded(1, q), rest)
  {
    hide *;
    var mask := Nonzero(q);
    var w, m, g := Word(q1, Ones(mask)), MaskBits(mask), Signs(q);
    HalfIs(q1, q, HalfBits(q1, q) + rest);
    Assoc(w, m + g, rest);
    Assoc(m, g, rest);
    BookRoundTrip(q1, Ones(mask), m + (g + rest));
    MaskRoundTrip(mask, g + rest);
    SignsRoundTrip(q, rest);
  }

  lemma HalfIs(q1: Book, q: seq<int>, s: Bits)
    requires |q| == 18 && |q1.enc| == 19
    ensures HalfBits(q1, q) == Word(q1, Ones(Nonzero(q))) + (MaskBits(Nonzero(q)) + Signs(q))
    ensures var p1 := BookDec(q1, s);
            p1.Got? ==>
              var p2 := MaskDec(p1.rest, p1.value, 18);
              p2.Got? ==> HalfDec(q1, s) == SignsDec(p2.rest, p2.value)
  {}

  // ----- resolutions 2 to 8: grouped samples, with a context that selects between two codes -----

  /** The books of the sample codes. */
  datatype SampleBooks = SampleBooks(q1: Book, q2: seq<Book>, q3: Book, q4: Book,
                                     q5: seq<Book>, q6: seq<Book>, q7: seq<Book>, q8: seq<Book>, q9up: Book)

  ghost predicate BookOf(book: Book, n: nat) { BookValid(book) && |book.enc| == n }

  ghost predicate Pair(books: seq<Book>, n: nat)
  {
    |books| == 2 && BookOf(books[0], n) && BookOf(books[1], n)
  }

  /** Every book is valid and has one word for each group of quantised samples. */
  ghost predicate SampleBooksValid(b: SampleBooks)
  {
    && BookOf(b.q1, 19) && Pair(b.q2, 125) && BookOf(b.q3, 49) && BookOf(b.q4, 81)
    && Pair(b.q5, 15) && Pair(b.q6, 31) && Pair(b.q7, 63) && Pair(b.q8, 127) && BookOf(b.q9up, 256)
  }

  /** Samples in one code word. */
  function Group(res: int): nat { if res == 2 then 3 else if res <= 4 then 2 else 1 }

  /** Code words of the book at this resolution. */
  function Words(res: int): nat
    requires 2 <= res <= 8
  {
    match res case 2 => 125 case 3 => 49 case 4 => 81 case 5 => 15 case 6 => 31 case 7 => 63 case _ => 127
  }

  // Writer and reader each have their own thresholds, their own choice between the two codes and their own running
  // context. That they agree is what the round trip of the groups rests on.

  /** `thres` of the encoder: a threshold on the running context, or the factor of the second of two samples. */
  function EncThres(res: int): nat
    requires 2 <= res <= 8
  {
    match res case 2 => 3 case 3 => 7 case 4 => 9 case 5 => 1 case 6 => 3 case 7 => 4 case _ => 8
  }

  /** `thres` of the decoder. */
  function DecThres(res: int): nat
    requires 2 <= res <= 8
  {
    match res case 2 => 3 case 3 => 0 case 4 => 0 case 5 => 1 case 6 => 3 case 7 => 4 case _ => 8
  }

  /** The code the next group is written in. */
  function EncBook(b: SampleBooks, res: int, idx: nat): Book
    requires SampleBooksValid(b) && 2 <= res <= 8
  {
    var second := if idx > EncThres(res) then 1 else 0;
    match res
    case 2 => b.q2[second]
    case 3 => b.q3
    case 4 => b.q4
    case 5 => b.q5[second]
    case 6 => b.q6[second]
    case 7 => b.q7[second]
    case _ => b.q8[second]
  }

  /** The code it is read in. */
  function DecBook(b: SampleBooks, res: int, idx: nat): Book
    requires SampleBooksValid(b) && 2 <= res <= 8
  {
    if res == 2 then b.q2[if idx > DecThres(res) then 1 else 0]
    else if res == 3 then b.q3
    else if res == 4 then b.q4
    else (match res case 5 => b.q5 case 6 => b.q6 case 7 => b.q7 case _ => b.q8)[if idx > DecThres(res) then 1 else 0]
  }

  /** `HuffQ2_var`, by the index of three samples; it is written in five parts. */
  function HuffQ2Var(t: int): nat
  {
    if t < 25 then Q2Part0(t) else if t < 50 then Q2Part1(t - 25) else if t < 75 then Q2Part2(t - 50)
    else if t < 100 then Q2Part3(t - 75) else Q2Part4(t - 100)
  }

  function Q2Part0(t: int): nat
  {
    match t
    case 0 => 6 case 1 => 5 case 2 => 4 case 3 => 5 case 4 => 6 case 5 => 5 case 6 => 4 case 7 => 3 case 8 => 4
    case 9 => 5 case 10 => 4 case 11 => 3 case 12 => 2 case 13 => 3 case 14 => 4 case 15 => 5 case 16 => 4
    case 17 => 3 case 18 => 4 case 19 => 5 case 20 => 6 case 21 => 5 case 22 => 4 case 23 => 5 case _ => 6
  }

  function Q2Part1(t: int): nat
  {
    match t
    case 0 => 5 case 1 => 4 case 2 => 3 case 3 => 4 case 4 => 5 case 5 => 4 case 6 => 3 case 7 => 2 case 8 => 3
    case 9 => 4 case 10 => 3 case 11 => 2 case 12 => 1 case 13 => 2 case 14 => 3 case 15 => 4 case 16 => 3
    case 17 => 2 case 18 => 3 case 19 => 4 case 20 => 5 case 21 => 4 case 22 => 3 case 23 => 4 case _ => 5
  }

  function Q2Part2(t: int): nat
  {
    match t
    case 0 => 4 case 1 => 3 case 2 => 2 case 3 => 3 case 4 => 4 case 5 => 3 case 6 => 2 case 7 => 1 case 8 => 2
    case 9 => 3 case 10 => 2 case 11 => 1 case 12 => 0 case 13 => 1 case 14 => 2 case 15 => 3 case 16 => 2
    case 17 => 1 case 18 => 2 case 19 => 3 case 20 => 4 case 21 => 3 case 22 => 2 case 23 => 3 case _ => 4
  }

  function Q2Part3(t: int): nat
  {
    match t
    case 0 => 5 case 1 => 4 case 2 => 3 case 3 => 4 case 4 => 5 case 5 => 4 case 6 => 3 case 7 => 2 case 8 => 3
    case 9 => 4 case 10 => 3 case 11 => 2 case 12 => 1 case 13 => 2 case 14 => 3 case 15 => 4 case 16 => 3
    case 17 => 2 case 18 => 3 case 19 => 4 case 20 => 5 case 21 => 4 case 22 => 3 case 23 => 4 case _ => 5
  }

  function Q2Part4(t: int): nat
  {
    match t
    case 0 => 6 case 1 => 5 case 2 => 4 case 3 => 5 case 4 => 6 case 5 => 5 case 6 => 4 case 7 => 3 case 8 => 4
    case 9 => 5 case 10 => 4 case 11 => 3 case 12 => 2 case 13 => 3 case 14 => 4 case 15 => 5 case 16 => 4
    case 17 => 3 case 18 => 4 case 19 => 5 case 20 => 6 case 21 => 5 case 22 => 4 case 23 => 5 case _ => 6
  }

  function Abs(x: int): nat { if x < 0 then -x else x }

  /** The table index of one group of samples. */
  function GroupIndex(res: int, g: seq<int>): int
    requires 2 <= res <= 8 && |g| == Group(res)
  {
    if res == 2 then g[0] + 5 * g[1] + 25 * g[2]
    else if res <= 4 then g[0] + EncThres(res) * g[1]
    else g[0]
  }

  /** The samples the decoder makes of it. */
  function GroupOf(res: int, t: int): (g: seq<int>)
    requires 2 <= res <= 8
    ensures |g| == Group(res)
  {
    if res == 2 then [t % 5 - 2, t / 5 % 5 - 2, t / 25 - 2]
    else if res == 3 then [t % 7 - 3, t / 7 - 3]
    else if res == 4 then [t % 9 - 4, t / 9 - 4]
    else [t - Dc(res)]
  }

  /** The writer's next context: how far the samples just written are from the middle, and half of what it was.
      Resolutions 3 and 4 keep none. */
  function EncCtx(res: int, idx: nat, t: int): nat
    requires 2 <= res <= 8
  {
    if res == 2 then idx / 2 + HuffQ2Var(t)
    else if res <= 4 then idx
    else idx / 2 + Abs(t - Shl(1, res - 2) + 1)
  }

  /** The reader's, from the index it has read. */
  function DecCtx(res: int, idx: nat, t: int): nat
    requires 2 <= res <= 8
  {
    match res
    case 2 => idx / 2 + HuffQ2Var(t)
    case 3 => idx
    case 4 => idx
    case _ => idx / 2 + Abs(GroupOf(res, t)[0])
  }

  /** The context of the first group of a band, on either side. */
  function EncFirst(res: int): nat
    requires 2 <= res <= 8
  {
    if res == 2 || res >= 5 then 2 * EncThres(res) else 1
  }

  function DecFirst(res: int): nat
    requires 2 <= res <= 8
  {
    if 3 <= res <= 4 then 1 else 2 * DecThres(res)
  }

  lemma EncBookValid(b: SampleBooks, res: int, idx: nat)
    requires SampleBooksValid(b) && 2 <= res <= 8
    ensures BookOf(EncBook(b, res, idx), Words(res))
  {}

  /** Both sides choose the same code, and go on with the same context. */
  lemma SidesAgree(b: SampleBooks, res: int, idx: nat, t: int)
    requires SampleBooksValid(b) && 2 <= res <= 8
    ensures DecBook(b, res, idx) == EncBook(b, res, idx)
    ensures DecCtx(res, idx, t) == EncCtx(res, idx, t) && DecFirst(res) == EncFirst(res)
  {
    hide BookValid, HuffQ2Var;
    assert Shl(1, 3) == 8 && Shl(1, 4) == 16 && Shl(1, 5) == 32 && Shl(1, 6) == 64;
  }

  lemma Triple(a: int, b: int, c: int)
    requires 0 <= a < 5 && 0 <= b < 5
    ensures var t := a + 5 * b + 25 * c; t % 5 == a && t / 5 % 5 == b && t / 25 == c
  {
    var t := a + 5 * b + 25 * c;
    assert t / 5 == b + 5 * c;
    assert t / 25 == c;
  }

  lemma Q2Parts(a: int, b: int)
    requires 0 <= a <= 4 && 0 <= b <= 4
    ensures Q2Part0(a + 5 * b) == Q2Part4(a + 5 * b) == Abs(a - 2) + Abs(b - 2) + 2
    ensures Q2Part1(a + 5 * b) == Q2Part3(a + 5 * b) == Abs(a - 2) + Abs(b - 2) + 1
    ensures Q2Part2(a + 5 * b) == Abs(a - 2) + Abs(b - 2)
  {}

  /** The table holds how far the three samples are from the middle, taken together. */
  lemma Q2VarIs(a: int, b: int, c: int)
    requires 0 <= a <= 4 && 0 <= b <= 4 && 0 <= c <= 4
    ensures HuffQ2Var(a + 5 * b + 25 * c) == Abs(a - 2) + Abs(b - 2) + Abs(c - 2)
  {
    hide Q2Part0, Q2Part1, Q2Part2, Q2Part3, Q2Part4;
    Q2Parts(a, b);
  }

  lemma Couple(a: int, b: int, m: int)
    requires m == 7 || m == 9
    requires 0 <= a < m
    ensures (a + m * b) % m == a && (a + m * b) / m == b
  {
    if m == 7 {
      assert (a + 7 * b) / 7 == b;
    } else {
      assert (a + 9 * b) / 9 == b;
    }
  }

  lemma SmallDecoded(res: int, g: seq<int>)
    requires 1 <= res <= 15 && 1 <= |g| <= 3
    ensures |g| == 1 ==> Decoded(res, g) == [g[0] - Dc(res)]
    ensures |g| == 2 ==> Decoded(res, g) == [g[0] - Dc(res), g[1] - Dc(res)]
    ensures |g| == 3 ==> Decoded(res, g) == [g[0] - Dc(res), g[1] - Dc(res), g[2] - Dc(res)]
  {
    hide Decoded, Dc;
    var d := Decoded(res, g);
    DecodedAt(res, g, 0);
    if |g| > 1 { DecodedAt(res, g, 1); }
    if |g| > 2 { DecodedAt(res, g, 2); }
  }

  lemma GroupOne(res: int, g: seq<int>)
    requires 5 <= res <= 8 && |g| == 1 && Quantised(res, g)
    ensures 0 <= GroupIndex(res, g) < Words(res) && GroupOf(res, GroupIndex(res, g)) == [g[0] - Dc(res)]
  {}

  lemma GroupTwo(g: seq<int>)
    requires |g| == 3 && Quantised(2, g)
    ensures 0 <= GroupIndex(2, g) < Words(2)
    ensures GroupOf(2, GroupIndex(2, g)) == [g[0] - Dc(2), g[1] - Dc(2), g[2] - Dc(2)]
  {
    Triple(g[0], g[1], g[2]);
  }

  lemma GroupPair(res: int, g: seq<int>)
    requires (res == 3 || res == 4) && |g| == 2 && Quantised(res, g)
    ensures 0 <= GroupIndex(res, g) < Words(res)
    ensures GroupOf(res, GroupIndex(res, g)) == [g[0] - Dc(res), g[1] - Dc(res)]
  {
    Couple(g[0], g[1], if res == 3 then 7 else 9);
  }

  lemma GroupRoundTrip(res: int, g: seq<int>)
    requires 2 <= res <= 8 && |g| == Group(res) && Quantised(res, g)
    ensures 0 <= GroupIndex(res, g) < Words(res) && GroupOf(res, GroupIndex(res, g)) == Decoded(res, g)
  {
    hide Decoded, GroupOf, GroupIndex, Words, Quantised;
    SmallDecoded(res, g);
    if res == 2 {
      GroupTwo(g);
    } else if res <= 4 {
      GroupPair(res, g);
    } else {
      GroupOne(res, g);
    }
  }

  function GroupsBits(b: SampleBooks, res: int, q: seq<int>, idx: nat): Bits
    requires SampleBooksValid(b) && 2 <= res <= 8 && Quantised(res, q)
  {
    var n := Group(res);
    if |q| < n then []
    else
      GroupRoundTrip(res, q[..n]);
      EncBookValid(b, res, idx);
      var t := GroupIndex(res, q[..n]);
      Word(EncBook(b, res, idx), t) + GroupsBits(b, res, q[n..], EncCtx(res, idx, t))
  }

  ghost function GroupsDec(b: SampleBooks, res: int, s: Bits, k: nat, idx: nat): (p: Parsed<seq<int>>)
    requires SampleBooksValid(b) && 2 <= res <= 8
    ensures p.Got? ==> |p.rest| <= |s|
    decreases k
  {
    if k == 0 then Got([], s)
    else
      var (t, s1) :- BookDec(DecBook(b, res, idx), s);
      var (q, s2) :- GroupsDec(b, res, s1, k - 1, DecCtx(res, idx, t));
      Got(GroupOf(res, t) + q, s2)
  }

  /** Samples in `k` groups. */
  function Total(res: int, k: nat): nat { if res == 2 then 3 * k else if res <= 4 then 2 * k else k }

  lemma GroupsStep(b: SampleBooks, res: int, q: seq<int>, k: nat, idx: nat)
    requires SampleBooksValid(b) && 2 <= res <= 8 && Quantised(res, q) && |q| == Total(res, k) && k > 0
    ensures var n := Group(res);
            && n <= |q| && |q[n..]| == Total(res, k - 1) && Quantised(res, q[..n]) && Quantised(res, q[n..])
            && Decoded(res, q) == Decoded(res, q[..n]) + Decoded(res, q[n..])
            && var t := GroupIndex(res, q[..n]);
            && 0 <= t < Words(res) && BookOf(EncBook(b, res, idx), Words(res))
            && GroupOf(res, t) == Decoded(res, q[..n])
            && GroupsBits(b, res, q, idx)
               == Word(EncBook(b, res, idx), t) + GroupsBits(b, res, q[n..], EncCtx(res, idx, t))
  {
    hide EncBook, Dc, GroupIndex, GroupOf, EncCtx, SampleBooksValid;
    var n := Group(res);
    assert Quantised(res, q[..n]);
    GroupRoundTrip(res, q[..n]);
    EncBookValid(b, res, idx);
    assert q[..n] + q[n..] == q;
    DecodedConcat(res, q[..n], q[n..]);
  }

  lemma GroupsDecStep(b: SampleBooks, res: int, s: Bits, k: nat, idx: nat, t: nat, tail: Bits, q: seq<int>, rest: Bits)
    requires SampleBooksValid(b) && 2 <= res <= 8 && k > 0
    requires BookDec(DecBook(b, res, idx), s) == Got(t, tail)
    requires GroupsDec(b, res, tail, k - 1, DecCtx(res, idx, t)) == Got(q, rest)
    ensures GroupsDec(b, res, s, k, idx) == Got(GroupOf(res, t) + q, rest)
  {}

  lemma BookOfValid(book: Book, n: nat)
    requires BookOf(book, n)
    ensures BookValid(book) && |book.enc| == n
  {}

  lemma GroupsNone(b: SampleBooks, res: int, q: seq<int>, idx: nat, rest: Bits)
    requires SampleBooksValid(b) && 2 <= res <= 8 && Quantised(res, q) && |q| == Total(res, 0)
    ensures GroupsDec(b, res, GroupsBits(b, res, q, idx) + rest, 0, idx) == Got(Decoded(res, q), rest)
  {
    hide BookValid, Dc, Quantised;
    assert q == [];
    assert GroupsBits(b, res, q, idx) == [] && [] + rest == rest;
  }

  lemma {:induction false} GroupsRoundTrip(b: SampleBooks, res: int, q: seq<int>, k: nat, idx: nat, rest: Bits)
    requires SampleBooksValid(b) && 2 <= res <= 8 && Quantised(res, q) && |q| == Total(res, k)
    ensures GroupsDec(b, res, GroupsBits(b, res, q, idx) + rest, k, idx) == Got(Decoded(res, q), rest)
    decreases k
  {
    hide *;
    if k == 0 {
      GroupsNone(b, res, q, idx, rest);
    } else {
      GroupsStep(b, res, q, k, idx);
      var n := Group(res);
      var t := GroupIndex(res, q[..n]);
      var book := EncBook(b, res, idx);
      BookOfValid(book, Words(res));
      var more := GroupsBits(b, res, q[n..], EncCtx(res, idx, t));
      Assoc(Word(book, t), more, rest);
      BookRoundTrip(book, t, more + rest);
      SidesAgree(b, res, idx, t);
      GroupsRoundTrip(b, res, q[n..], k - 1, EncCtx(res, idx, t), rest);
      GroupsDecStep(b, res, GroupsBits(b, res, q, idx) + rest, k, idx, t, more + rest, Decoded(res, q[n..]), rest);
    }
  }

  // ----- resolutions 9 to 15: the high byte coded, the low bits plain -----

  function PlainBits(q9up: Book, res: int, q: seq<int>): Bits
    requires 9 <= res <= 15 && |q9up.enc| == 256 && Quantised(res, q)
  {
    if q == [] then []
    else
      HighByte(res, q[0]);
      Word(q9up, Shr(q[0], res - 9)) + (Enc(q[0], res - 9) + PlainBits(q9up, res, q[1..]))
  }

  lemma HighByte(res: int, q: int)
    requires 9 <= res <= 15 && 0 <= q <= 2 * Dc(res)
    ensures Shr(q, res - 9) < 256
  {
    hide Shr;
    Pow2Facts();
    assert 2 * Dc(res) < Pow2(8 + (res - 9));
    ShrBound(q, 8, res - 9);
  }

  ghost function PlainDec(q9up: Book, res: int, s: Bits, k: nat): (p: Parsed<seq<int>>)
    requires 9 <= res <= 15
    ensures p.Got? ==> |p.rest| <= |s|
    decreases k
  {
    if k == 0 then Got([], s)
    else
      var (hi, s1) :- BookDec(q9up, s);
      var (lo, s2) :- Take(s1, res - 9);
      var (q, s3) :- PlainDec(q9up, res, s2, k - 1);
      Got([lo + Shl(hi, res - 9) - Dc(res)] + q, s3)
  }

  lemma TakeEncLow(v: nat, n: nat, rest: Bits)
    ensures Take(Enc(v, n) + rest, n) == Got(Low(v, n), rest)
  {
    hide Take, Enc, Low;
    EncLow(v, n, n);
    TakeEnc(Low(v, n), n, rest);
  }

  lemma PlainStep(q9up: Book, res: int, q: seq<int>, rest: Bits)
    requires 9 <= res <= 15 && BookOf(q9up, 256) && Quantised(res, q) && q != []
    ensures 0 <= q[0] && Shr(q[0], res - 9) < 256 && Quantised(res, q[1..])
    ensures PlainBits(q9up, res, q) + rest
         == Word(q9up, Shr(q[0], res - 9)) + (Enc(q[0], res - 9) + (PlainBits(q9up, res, q[1..]) + rest))
    ensures Decoded(res, q) == [q[0] - Dc(res)] + Decoded(res, q[1..])
  {
    hide Enc, Shr, Word, Dc;
    HighByte(res, q[0]);
    var w, e, more := Word(q9up, Shr(q[0], res - 9)), Enc(q[0], res - 9), PlainBits(q9up, res, q[1..]);
    Assoc(w, e + more, rest);
    Assoc(e, more, rest);
  }

  lemma PlainNone(q9up: Book, res: int, rest: Bits)
    requires 9 <= res <= 15 && BookOf(q9up, 256)
    ensures Quantised(res, []) && PlainDec(q9up, res, PlainBits(q9up, res, []) + rest, 0) == Got(Decoded(res, []), rest)
  {}

  lemma PlainDecStep(q9up: Book, res: int, s: Bits, k: nat, hi: nat, s1: Bits, lo: nat, s2: Bits, q: seq<int>, rest: Bits)
    requires 9 <= res <= 15 && k > 0 && BookDec(q9up, s) == Got(hi, s1) && Take(s1, res - 9) == Got(lo, s2)
    requires PlainDec(q9up, res, s2, k - 1) == Got(q, rest)
    ensures PlainDec(q9up, res, s, k) == Got([lo + Shl(hi, res - 9) - Dc(res)] + q, rest)
  {}

  lemma {:induction false} PlainRoundTrip(q9up: Book, res: int, q: seq<int>, rest: Bits)
    requires 9 <= res <= 15 && BookOf(q9up, 256) && Quantised(res, q)
    ensures PlainDec(q9up, res, PlainBits(q9up, res, q) + rest, |q|) == Got(Decoded(res, q), rest)
  {
    hide *;
    if q == [] {
      PlainNone(q9up, res, rest);
    } else {
      PlainStep(q9up, res, q, rest);
      BookOfValid(q9up, 256);
      var hi, more := Shr(q[0], res - 9), PlainBits(q9up, res, q[1..]) + rest;
      BookRoundTrip(q9up, hi, Enc(q[0], res - 9) + more);
      TakeEncLow(q[0], res - 9, more);
      Recompose(q[0], res - 9);
      PlainRoundTrip(q9up, res, q[1..], rest);
      PlainDecStep(q9up, res, PlainBits(q9up, res, q) + rest, |q|, hi, Enc(q[0], res - 9) + more,
                   Low(q[0], res - 9), more, Decoded(res, q[1..]), rest);
    }
  }

  // ----- one band and channel -----

  /** What the encoder requires of a band: samples matter only where a quantiser is chosen. */
  ghost predicate BandOk(res: int, q: seq<int>)
  {
    -1 <= res <= 15 && (res >= 1 ==> |q| == 36 && Quantised(res, q))
  }

  /** The bits of 36 samples; silence and noise bands take none. */
  function SampleBits(b: SampleBooks, res: int, q: seq<int>): Bits
    requires SampleBooksValid(b) && BandOk(res, q)
  {
    if res <= 0 then []
    else if res == 1 then HalfBits(b.q1, q[..18]) + HalfBits(b.q1, q[18..])
    else if res <= 8 then GroupsBits(b, res, q, EncFirst(res))
    else PlainBits(b.q9up, res, q)
  }

  ghost function SampleDec(b: SampleBooks, res: int, s: Bits): (p: Parsed<seq<int>>)
    requires SampleBooksValid(b) && -1 <= res <= 15
    ensures p.Got? ==> |p.rest| <= |s|
  {
    if res <= 0 then Got([], s)
    else if res == 1 then
      var (q0, s1) :- HalfDec(b.q1, s);
      var (q1, s2) :- HalfDec(b.q1, s1);
      Got(q0 + q1, s2)
    else if res <= 8 then GroupsDec(b, res, s, 36 / Group(res), DecFirst(res))
    else PlainDec(b.q9up, res, s, 36)
  }

  /** What is recovered: the samples moved by the quantiser's offset, for every resolution that has any. */
  function Recovered(res: int, q: seq<int>): seq<int>
    requires -1 <= res <= 15
  {
    if res <= 0 then [] else Decoded(res, q)
  }

  lemma SampleRoundTrip(b: SampleBooks, res: int, q: seq<int>, rest: Bits)
    requires SampleBooksValid(b) && BandOk(res, q)
    ensures SampleDec(b, res, SampleBits(b, res, q) + rest) == Got(Recovered(res, q), rest)
  {
    hide HalfBits, HalfDec, GroupsBits, GroupsDec, PlainBits, PlainDec, Decoded, Dc, BookValid;
    if res <= 0 {
      assert SampleBits(b, res, q) + rest == rest;
    } else if res == 1 {
      var h0, h1 := HalfBits(b.q1, q[..18]), HalfBits(b.q1, q[18..]);
      Assoc(h0, h1, rest);
      HalfRoundTrip(b.q1, q[..18], h1 + rest);
      HalfRoundTrip(b.q1, q[18..], rest);
      assert q[..18] + q[18..] == q;
      DecodedConcat(1, q[..18], q[18..]);
    } else if res <= 8 {
      SidesAgree(b, res, 0, 0);
      GroupsRoundTrip(b, res, q, 36 / Group(res), EncFirst(res), rest);
    } else {
      PlainRoundTrip(b.q9up, res, q, rest);
    }
  }

  // ----- the words of a band, one by one -----

  lemma GroupsNext(b: SampleBooks, res: int, q: seq<int>, idx: nat)
    requires SampleBooksValid(b) && 2 <= res <= 8 && Quantised(res, q) && |q| >= Group(res)
    ensures var n := Group(res);
            && Quantised(res, q[n..])
            && var t := GroupIndex(res, q[..n]);
            && 0 <= t < Words(res) && BookOf(EncBook(b, res, idx), Words(res))
            && GroupsBits(b, res, q, idx) == Word(EncBook(b, res, idx), t) + GroupsBits(b, res, q[n..], EncCtx(res, idx, t))
  {
    hide EncBook, Dc, GroupIndex, GroupOf, EncCtx, SampleBooksValid;
    GroupRoundTrip(res, q[..Group(res)]);
    EncBookValid(b, res, idx);
  }

  /** Three samples of five steps in a word; the second code is for contexts above 3. */
  lemma TripleWords(b: SampleBooks, q: seq<int>, idx: nat)
    requires SampleBooksValid(b) && Quantised(2, q) && |q| >= 3
    ensures 0 <= q[0] + 5 * q[1] + 25 * q[2] < 125 && Quantised(2, q[3..])
    ensures BookOf(b.q2[0], 125) && BookOf(b.q2[1], 125)
    ensures GroupsBits(b, 2, q, idx)
         == Word(b.q2[if idx > 3 then 1 else 0], q[0] + 5 * q[1] + 25 * q[2])
            + GroupsBits(b, 2, q[3..], idx / 2 + Abs(q[0] - 2) + Abs(q[1] - 2) + Abs(q[2] - 2))
    ensures |q| == 36 ==> SampleBits(b, 2, q) == GroupsBits(b, 2, q, 6)
  {
    hide GroupsBits, BookValid, HuffQ2Var, Word;
    GroupsNext(b, 2, q, idx);
    Q2VarIs(q[0], q[1], q[2]);
  }

  /** Two samples of seven or nine steps in a word, all in one code. */
  lemma CoupleWords(b: SampleBooks, res: int, q: seq<int>, idx: nat)
    requires SampleBooksValid(b) && 3 <= res <= 4 && Quantised(res, q) && |q| >= 2
    ensures Quantised(res, q[2..]) && BookOf(b.q3, 49) && BookOf(b.q4, 81)
    ensures res == 3 ==> 0 <= q[0] + 7 * q[1] < 49
                         && GroupsBits(b, 3, q, idx) == Word(b.q3, q[0] + 7 * q[1]) + GroupsBits(b, 3, q[2..], idx)
    ensures res == 4 ==> 0 <= q[0] + 9 * q[1] < 81
                         && GroupsBits(b, 4, q, idx) == Word(b.q4, q[0] + 9 * q[1]) + GroupsBits(b, 4, q[2..], idx)
    ensures |q| == 36 ==> SampleBits(b, res, q) == GroupsBits(b, res, q, 1)
  {
    hide GroupsBits, BookValid, HuffQ2Var, Word;
    GroupsNext(b, res, q, idx);
  }

  /** One sample in a word; the second code is for contexts above 1, 3, 4 and 8, and the first context is twice that. */
  lemma SingleWords(b: SampleBooks, res: int, q: seq<int>, idx: nat)
    requires SampleBooksValid(b) && 5 <= res <= 8 && Quantised(res, q) && |q| >= 1
    ensures Quantised(res, q[1..]) && Pair(b.q5, 15) && Pair(b.q6, 31) && Pair(b.q7, 63) && Pair(b.q8, 127)
    ensures res == 5 ==> 0 <= q[0] < 15 && GroupsBits(b, 5, q, idx)
                         == Word(b.q5[if idx > 1 then 1 else 0], q[0]) + GroupsBits(b, 5, q[1..], idx / 2 + Abs(q[0] - 7))
    ensures res == 6 ==> 0 <= q[0] < 31 && GroupsBits(b, 6, q, idx)
                         == Word(b.q6[if idx > 3 then 1 else 0], q[0]) + GroupsBits(b, 6, q[1..], idx / 2 + Abs(q[0] - 15))
    ensures res == 7 ==> 0 <= q[0] < 63 && GroupsBits(b, 7, q, idx)
                         == Word(b.q7[if idx > 4 then 1 else 0], q[0]) + GroupsBits(b, 7, q[1..], idx / 2 + Abs(q[0] - 31))
    ensures res == 8 ==> 0 <= q[0] < 127 && GroupsBits(b, 8, q, idx)
                         == Word(b.q8[if idx > 8 then 1 else 0], q[0]) + GroupsBits(b, 8, q[1..], idx / 2 + Abs(q[0] - 63))
    ensures |q| == 36 ==> SampleBits(b, res, q) == GroupsBits(b, res, q, match res case 5 => 2 case 6 => 6 case 7 => 8 case _ => 16)
  {
    hide GroupsBits, BookValid, HuffQ2Var, Word;
    GroupsNext(b, res, q, idx);
    assert Shl(1, 3) == 8 && Shl(1, 4) == 16 && Shl(1, 5) == 32 && Shl(1, 6) == 64;
  }
}
