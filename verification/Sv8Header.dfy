/** The side information of a frame: how many bands are used, their resolutions, and their M/S flags. */
module Sv8Header {
  import opened BitStrings
  import opened Integers
  import opened Enumerative
  import opened Codebooks
  import opened Sv8Samples

  /** All the codes of the bitstream. */
  datatype Books = Books(bands: Book, res: seq<Book>, scfi: seq<Book>, dscf: seq<Book>, samples: SampleBooks)

  ghost predicate BooksValid(b: Books)
  {
    && BookOf(b.bands, 33) && Pair(b.res, 17)
    && |b.scfi| == 2 && BookOf(b.scfi[0], 4) && BookOf(b.scfi[1], 16)
    && |b.dscf| == 2 && BookOf(b.dscf[0], 64) && BookOf(b.dscf[1], 65)
    && SampleBooksValid(b.samples)
  }

  ghost predicate ResOk(res: seq<int>)
  {
    |res| == 32 && forall n :: 0 <= n < 32 ==> -1 <= res[n] <= 15
  }

  // ----- the number of used bands -----

  /** One past the highest of the first `n` bands with anything in it. */
  function Used(l: seq<int>, r: seq<int>, n: nat): (u: nat)
    requires n <= |l| && n <= |r|
    ensures u <= n && (u > 0 ==> l[u - 1] != 0 || r[u - 1] != 0)
    ensures forall k :: u <= k < n ==> l[k] == 0 && r[k] == 0
  {
    if n == 0 then 0 else if l[n - 1] != 0 || r[n - 1] != 0 then n else Used(l, r, n - 1)
  }

  /** A key frame sends the count itself, others its change modulo 33. */
  function BandsBits(b: Books, key: bool, used: nat, max: nat, last: nat): Bits
    requires BooksValid(b) && used <= max <= 32 && 1 <= max && last <= 32
  {
    if key then LogBits(used, max) else Word(b.bands, (used - last) % 33)
  }

  ghost function BandsDec(b: Books, key: bool, max: nat, last: nat, s: Bits): (p: Parsed<nat>)
    requires BooksValid(b) && 1 <= max <= 32 && last <= 32
    ensures p.Got? ==> p.value <= 32
    ensures p.Got? ==> |p.rest| <= |s|
  {
    if key then
      LogTotal(s, max);
      LogDec(s, max)
    else
      var (i, s1) :- BookDec(b.bands, s);
      Got(if last + i > 32 then last + i - 33 else last + i, s1)
  }

  /** The logarithmic code has no word for a value above its maximum. */
  lemma LogTotal(s: Bits, max: nat)
    requires max <= 32
    ensures LogDec(s, max).Got? ==> LogDec(s, max).value <= max
  {
    if max > 0 && LogDec(s, max).Got? {
      hide LogLen, LogLost, Val, Pow2;
      LogTables(max);
      var len := LogLen(max);
      assert Take(s, len - 1).Got? && Take(s, len - 1).value < Pow2(len - 1);
      Doubling(len);
      var s1 := Take(s, len - 1).rest;
      Pow2Facts();
      assert Take(s1, 1).Got? ==> Take(s1, 1).value < Pow2(1);
    }
  }

  lemma BandsRoundTrip(b: Books, key: bool, used: nat, max: nat, last: nat, rest: Bits)
    requires BooksValid(b) && used <= max <= 32 && 1 <= max && last <= 32
    ensures BandsDec(b, key, max, last, BandsBits(b, key, used, max, last) + rest) == Got(used, rest)
  {
    hide LogBits, LogDec, BookValid;
    if key {
      LogRoundTrip(used, max, rest);
    } else {
      BookRoundTrip(b.bands, (used - last) % 33, rest);
    }
  }

  // ----- resolutions -----

  function Wrap17(d: int): int { if d < 0 then d + 17 else d }
  function Unwrap17(v: int): int { if v > 15 then v - 17 else v }

  /** The code the writer takes depends on the band above, and so does the reader's. */
  function EncResBook(b: Books, above: int): Book
    requires BooksValid(b)
  {
    if above > 2 then b.res[1] else b.res[0]
  }

  function DecResBook(b: Books, above: int): Book
    requires BooksValid(b)
  {
    b.res[if above > 2 then 1 else 0]
  }

  /** Both channels of one band, each as a change from the band above. The highest used band counts from
      zero, which is the same code. */
  function ResPair(b: Books, al: int, ar: int, l: int, r: int): Bits
    requires BooksValid(b) && -1 <= al <= 15 && -1 <= ar <= 15 && -1 <= l <= 15 && -1 <= r <= 15
  {
    Word(EncResBook(b, al), Wrap17(l - al)) + Word(EncResBook(b, ar), Wrap17(r - ar))
  }

  ghost function ResPairDec(b: Books, al: int, ar: int, s: Bits): (p: Parsed<(int, int)>)
    requires BooksValid(b) && -1 <= al <= 15 && -1 <= ar <= 15
    ensures p.Got? ==> -1 <= p.value.0 <= 15 && -1 <= p.value.1 <= 15
    ensures p.Got? ==> |p.rest| <= |s|
  {
    var (i, s1) :- BookDec(DecResBook(b, al), s);
    var (j, s2) :- BookDec(DecResBook(b, ar), s1);
    Got((Unwrap17(i + al), Unwrap17(j + ar)), s2)
  }

  lemma ResWord(b: Books, above: int, v: int, rest: Bits)
    requires BooksValid(b) && -1 <= above <= 15 && -1 <= v <= 15
    ensures 0 <= Wrap17(v - above) < 17 && |EncResBook(b, above).enc| == 17
    ensures BookDec(DecResBook(b, above), Word(EncResBook(b, above), Wrap17(v - above)) + rest) == Got(Wrap17(v - above), rest)
    ensures Unwrap17(Wrap17(v - above) + above) == v
  {
    hide BookValid;
    assert DecResBook(b, above) == EncResBook(b, above);
    BookRoundTrip(EncResBook(b, above), Wrap17(v - above), rest);
  }

  lemma ResPairRoundTrip(b: Books, al: int, ar: int, l: int, r: int, rest: Bits)
    requires BooksValid(b) && -1 <= al <= 15 && -1 <= ar <= 15 && -1 <= l <= 15 && -1 <= r <= 15
    ensures ResPairDec(b, al, ar, ResPair(b, al, ar, l, r) + rest) == Got((l, r), rest)
  {
    hide BooksValid, Word, BookDec, Wrap17, Unwrap17, EncResBook;
    ResWord(b, ar, r, rest);
    var x := Word(EncResBook(b, ar), Wrap17(r - ar));
    ResWord(b, al, l, x + rest);
    Assoc(Word(EncResBook(b, al), Wrap17(l - al)), x, rest);
  }

  /** The words of a band, written out: the change from the band above, modulo 17, in the second code where that band
      has a resolution above 2. */
  lemma ResWords(b: Books, al: int, ar: int, l: int, r: int)
    requires BooksValid(b) && -1 <= al <= 15 && -1 <= ar <= 15 && -1 <= l <= 15 && -1 <= r <= 15
    ensures BookOf(b.res[0], 17) && BookOf(b.res[1], 17)
    ensures ResPair(b, al, ar, l, r)
         == Word(b.res[if al > 2 then 1 else 0], (l - al) % 17) + Word(b.res[if ar > 2 then 1 else 0], (r - ar) % 17)
  {
    hide BookValid, Word;
  }

  /** Bands `n - 1` down to 0. */
  function ResBelow(b: Books, l: seq<int>, r: seq<int>, n: nat): Bits
    requires BooksValid(b) && ResOk(l) && ResOk(r) && n < 32
  {
    if n == 0 then [] else ResPair(b, l[n], r[n], l[n - 1], r[n - 1]) + ResBelow(b, l, r, n - 1)
  }

  function ResBits(b: Books, l: seq<int>, r: seq<int>, used: nat): Bits
    requires BooksValid(b) && ResOk(l) && ResOk(r) && used <= 32
  {
    if used == 0 then []
    else ResPair(b, 0, 0, l[used - 1], r[used - 1]) + ResBelow(b, l, r, used - 1)
  }

  /** Resolutions of the bands from 0 up, left and right. */
  ghost predicate BothOk(p: (seq<int>, seq<int>), n: nat)
  {
    |p.0| == |p.1| == n && forall k :: 0 <= k < n ==> -1 <= p.0[k] <= 15 && -1 <= p.1[k] <= 15
  }

  /** The decoder's side: bands 0 to `n - 1`, given the resolutions of band `n`. */
  ghost function ResBelowDec(b: Books, s: Bits, n: nat, tl: int, tr: int): (p: Parsed<(seq<int>, seq<int>)>)
    requires BooksValid(b) && -1 <= tl <= 15 && -1 <= tr <= 15
    ensures p.Got? ==> BothOk(p.value, n)
    ensures p.Got? ==> |p.rest| <= |s|
    decreases n
  {
    if n == 0 then Got(([], []), s)
    else
      var (v, s1) :- ResPairDec(b, tl, tr, s);
      var (below, s2) :- ResBelowDec(b, s1, n - 1, v.0, v.1);
      Got((below.0 + [v.0], below.1 + [v.1]), s2)
  }

  ghost function ResDec(b: Books, s: Bits, used: nat): (p: Parsed<(seq<int>, seq<int>)>)
    requires BooksValid(b)
    ensures p.Got? ==> BothOk(p.value, used)
    ensures p.Got? ==> |p.rest| <= |s|
  {
    ResBelowDec(b, s, used, 0, 0)
  }

  lemma ResBelowDecStep(b: Books, s: Bits, n: nat, tl: int, tr: int, v: (int, int), s1: Bits,
                        below: (seq<int>, seq<int>), rest: Bits)
    requires BooksValid(b) && -1 <= tl <= 15 && -1 <= tr <= 15 && n > 0
    requires ResPairDec(b, tl, tr, s) == Got(v, s1)
    requires -1 <= v.0 <= 15 && -1 <= v.1 <= 15 && ResBelowDec(b, s1, n - 1, v.0, v.1) == Got(below, rest)
    ensures ResBelowDec(b, s, n, tl, tr) == Got((below.0 + [v.0], below.1 + [v.1]), rest)
  {
    hide BooksValid, ResPairDec, BothOk;
  }

  lemma ResBelowStep(b: Books, l: seq<int>, r: seq<int>, n: nat, rest: Bits)
    requires BooksValid(b) && ResOk(l) && ResOk(r) && 0 < n < 32
    ensures |l| == |r| == 32
    ensures -1 <= l[n] <= 15 && -1 <= r[n] <= 15 && -1 <= l[n - 1] <= 15 && -1 <= r[n - 1] <= 15
    ensures ResBelow(b, l, r, n) + rest
         == ResPair(b, l[n], r[n], l[n - 1], r[n - 1]) + (ResBelow(b, l, r, n - 1) + rest)
    ensures l[..n] == l[..n - 1] + [l[n - 1]] && r[..n] == r[..n - 1] + [r[n - 1]]
  {
    hide BooksValid, ResPair;
    Assoc(ResPair(b, l[n], r[n], l[n - 1], r[n - 1]), ResBelow(b, l, r, n - 1), rest);
  }

  lemma ResBelowNone(b: Books, l: seq<int>, r: seq<int>, rest: Bits, tl: int, tr: int)
    requires BooksValid(b) && ResOk(l) && ResOk(r) && -1 <= tl <= 15 && -1 <= tr <= 15
    ensures ResBelowDec(b, ResBelow(b, l, r, 0) + rest, 0, tl, tr) == Got((l[..0], r[..0]), rest)
    ensures ResBits(b, l, r, 0) == ResBelow(b, l, r, 0)
  {}

  lemma {:induction false} ResBelowRoundTrip(b: Books, l: seq<int>, r: seq<int>, n: nat, rest: Bits)
    requires BooksValid(b) && ResOk(l) && ResOk(r) && n < 32 == |l| == |r| && -1 <= l[n] <= 15 && -1 <= r[n] <= 15
    ensures ResBelowDec(b, ResBelow(b, l, r, n) + rest, n, l[n], r[n]) == Got((l[..n], r[..n]), rest)
  {
    hide *;
    if n == 0 {
      ResBelowNone(b, l, r, rest, l[n], r[n]);
    } else {
      ResBelowStep(b, l, r, n, rest);
      var tail := ResBelow(b, l, r, n - 1) + rest;
      ResPairRoundTrip(b, l[n], r[n], l[n - 1], r[n - 1], tail);
      ResBelowRoundTrip(b, l, r, n - 1, rest);
      ResBelowDecStep(b, ResBelow(b, l, r, n) + rest, n, l[n], r[n], (l[n - 1], r[n - 1]), tail,
                      (l[..n - 1], r[..n - 1]), rest);
    }
  }

  lemma ResBitsIs(b: Books, l: seq<int>, r: seq<int>, used: nat, s: Bits)
    requires BooksValid(b) && ResOk(l) && ResOk(r) && 0 < used <= 32
    ensures |l| == |r| == 32 && -1 <= l[used - 1] <= 15 && -1 <= r[used - 1] <= 15
    ensures ResBits(b, l, r, used) == ResPair(b, 0, 0, l[used - 1], r[used - 1]) + ResBelow(b, l, r, used - 1)
    ensures l[..used] == l[..used - 1] + [l[used - 1]] && r[..used] == r[..used - 1] + [r[used - 1]]
  {}

  lemma ResDecIs(b: Books, s: Bits, used: nat)
    requires BooksValid(b)
    ensures ResDec(b, s, used) == ResBelowDec(b, s, used, 0, 0)
  {}

  lemma ResRoundTrip(b: Books, l: seq<int>, r: seq<int>, used: nat, rest: Bits)
    requires BooksValid(b) && ResOk(l) && ResOk(r) && used <= 32 == |l| == |r|
    ensures ResDec(b, ResBits(b, l, r, used) + rest, used) == Got((l[..used], r[..used]), rest)
  {
    hide *;
    var s := ResBits(b, l, r, used) + rest;
    ResDecIs(b, s, used);
    if used == 0 {
      ResBelowNone(b, l, r, rest, 0, 0);
    } else {
      ResBitsIs(b, l, r, used, s);
      var below := ResBelow(b, l, r, used - 1);
      Assoc(ResPair(b, 0, 0, l[used - 1], r[used - 1]), below, rest);
      ResPairRoundTrip(b, 0, 0, l[used - 1], r[used - 1], below + rest);
      ResBelowRoundTrip(b, l, r, used - 1, rest);
      ResBelowDecStep(b, s, used, 0, 0, (l[used - 1], r[used - 1]), below + rest,
                      (l[..used - 1], r[..used - 1]), rest);
    }
  }

  // ----- M/S flags -----

  predicate Coded(l: seq<int>, r: seq<int>, n: nat)
    requires n < |l| && n < |r|
  {
    l[n] != 0 || r[n] != 0
  }

  /** The flags of the coded bands `k` to `used - 1`, lowest band first. */
  function MsMask(l: seq<int>, r: seq<int>, ms: seq<bool>, k: nat, used: nat): (m: Bits)
    requires k <= used <= |l| && used <= |r| && used <= |ms|
    ensures |m| == CountCoded(l, r, k, used)
    decreases used - k
  {
    if k == used then []
    else (if Coded(l, r, k) then [ms[k]] else []) + MsMask(l, r, ms, k + 1, used)
  }

  function CountCoded(l: seq<int>, r: seq<int>, k: nat, used: nat): (n: nat)
    requires k <= used <= |l| && used <= |r|
    ensures n <= used - k
    decreases used - k
  {
    if k == used then 0 else (if Coded(l, r, k) then 1 else 0) + CountCoded(l, r, k + 1, used)
  }

  lemma {:induction false} SomeCoded(l: seq<int>, r: seq<int>, k: nat, used: nat, n: nat)
    requires k <= n < used <= |l| && used <= |r| && Coded(l, r, n)
    ensures CountCoded(l, r, k, used) >= 1
    decreases used - k
  {
    if k < n { SomeCoded(l, r, k + 1, used, n); }
  }

  /** Putting decoded flags back on their bands; bands without a flag keep what they had. */
  function Spread(l: seq<int>, r: seq<int>, mask: Bits, was: seq<bool>, k: nat, used: nat): (ms: seq<bool>)
    requires k <= used <= |l| && used <= |r| && used <= |was| && |mask| == CountCoded(l, r, k, used)
    ensures |ms| == |was| - k
    decreases used - k
  {
    if k == used then was[used..]
    else if Coded(l, r, k) then [mask[0]] + Spread(l, r, mask[1..], was, k + 1, used)
    else [was[k]] + Spread(l, r, mask, was, k + 1, used)
  }

  lemma {:induction false} SpreadMask(l: seq<int>, r: seq<int>, ms: seq<bool>, was: seq<bool>, k: nat, used: nat, n: nat)
    requires k <= used <= |l| && used <= |r| && used <= |was| && used <= |ms| && k <= n < |was|
    ensures Spread(l, r, MsMask(l, r, ms, k, used), was, k, used)[n - k]
         == if n < used && Coded(l, r, n) then ms[n] else was[n]
    decreases used - k
  {
    if k < used {
      var m := MsMask(l, r, ms, k, used);
      var tail := MsMask(l, r, ms, k + 1, used);
      if Coded(l, r, k) { assert m[1..] == tail; } else { assert m == tail; }
      if n > k { SpreadMask(l, r, ms, was, k + 1, used, n); }
    }
  }

  function MsBits(l: seq<int>, r: seq<int>, ms: seq<bool>, used: nat): Bits
    requires used <= 32 && used <= |l| && used <= |r| && used <= |ms| && CountCoded(l, r, 0, used) >= 1
  {
    var m := MsMask(l, r, ms, 0, used);
    LogBits(Ones(m), |m|) + MaskBits(m)
  }

  function MsDec(l: seq<int>, r: seq<int>, used: nat, s: Bits): (p: Parsed<Bits>)
    requires used <= 32 && used <= |l| && used <= |r|
    ensures p.Got? ==> |p.value| == CountCoded(l, r, 0, used)
    ensures p.Got? ==> |p.rest| <= |s|
  {
    var tot := CountCoded(l, r, 0, used);
    LogTotal(s, tot);
    var (cnt, s1) :- LogDec(s, tot);
    MaskDec(s1, cnt, tot)
  }

  lemma MsRoundTrip(l: seq<int>, r: seq<int>, ms: seq<bool>, used: nat, rest: Bits)
    requires used <= 32 && used <= |l| && used <= |r| && used <= |ms| && CountCoded(l, r, 0, used) >= 1
    ensures MsDec(l, r, used, MsBits(l, r, ms, used) + rest) == Got(MsMask(l, r, ms, 0, used), rest)
  {
    hide LogBits, LogDec, MaskBits, MaskDec, MsMask, Ones;
    var m := MsMask(l, r, ms, 0, used);
    Assoc(LogBits(Ones(m), |m|), MaskBits(m), rest);
    LogRoundTrip(Ones(m), |m|, MaskBits(m) + rest);
    MaskRoundTrip(m, rest);
  }
}
