/** The decoder object: one call per frame, its cross-frame memory left as the specification says. */
module Sv8FrameDecoding {
  import opened BitStrings
  import opened BitReading
  import opened Integers
  import opened Enumerative
  import opened Codebooks
  import opened Sv8Samples
  import opened Sv8Header
  import opened Sv8Scf
  import opened Sv8Frame
  import opened Sv8Memory
  import opened Sv8Encoding
  import opened Sv8Decoding

  lemma SampleDecCases(b: SampleBooks, res: int, s: Bits)
    requires SampleBooksValid(b) && -1 <= res <= 15 && SampleDec(b, res, s).Got?
    ensures BookValid(b.q1) && |b.q1.enc| == 19 && BookValid(b.q9up)
    ensures res <= 0 ==> SampleDec(b, res, s) == Got([], s)
    ensures res == 1 ==>
              var p := HalfDec(b.q1, s);
              && p.Got? && HalfDec(b.q1, p.rest).Got?
              && SampleDec(b, res, s) == Got(p.value + HalfDec(b.q1, p.rest).value, HalfDec(b.q1, p.rest).rest)
    ensures 2 <= res <= 8 ==> 36 / Group(res) >= 0 && SampleDec(b, res, s) == GroupsDec(b, res, s, 36 / Group(res), DecFirst(res))
    ensures 9 <= res ==> SampleDec(b, res, s) == PlainDec(b.q9up, res, s, 36)
  {
    hide HalfDec, GroupsDec, PlainDec, BookValid;
  }

  lemma BooksAre(b: Books)
    requires SymsOk(b)
    ensures BooksValid(b) && SampleBooksValid(b.samples) && BookValid(b.samples.q1) && Plain(b.samples.q1)
    ensures BookValid(b.bands) && Plain(b.bands) && |b.bands.enc| == 33
    ensures |b.scfi| == |b.dscf| == |b.res| == 2
    ensures forall k :: 0 <= k < 2 ==> BookValid(b.scfi[k]) && Plain(b.scfi[k]) && BookValid(b.dscf[k]) && Plain(b.dscf[k])
    ensures forall k :: 0 <= k < 2 ==> BookValid(b.res[k]) && Plain(b.res[k]) && |b.res[k].enc| == 17
  {
    hide BookValid, Plain, Packed, Centred, SignedByte;
  }

  /** The samples of one band and channel. */
  method ReadBand(r: BitReader, b: Books, res: int) returns (q: seq<int>)
    requires SymsOk(b) && SampleBooksValid(b.samples) && -1 <= res <= 15 && r.Valid()
    requires var p := SampleDec(b.samples, res, r.Remaining()); p.Got? && |p.rest| >= 24
    modifies r`pos, r`count
    ensures r.Valid() && SampleDec(b.samples, res, old(r.Remaining())) == Got(q, r.Remaining())
  {
    hide *;
    BooksAre(b);
    SampleDecCases(b.samples, res, r.Remaining());
    if res <= 0 {
      q := [];
    } else if res == 1 {
      HalfRest(b.samples.q1, r.Remaining());
      q := ReadHalf(r, b.samples.q1);
      var more := ReadHalf(r, b.samples.q1);
      q := q + more;
    } else if res <= 8 {
      GroupSizes(res);
      q := ReadGroups(r, b, res, 36 / Group(res));
    } else {
      q := ReadWide(r, b, res, 36);
    }
  }

  lemma HalfRest(q1: Book, s: Bits)
    requires |q1.enc| == 19
    ensures HalfDec(q1, s).Got? ==> |HalfDec(q1, s).rest| <= |s|
  {
    hide HalfDec;
  }

  // ----- side information -----

  lemma BandsDecCases(b: Books, key: bool, max: nat, last: nat, s: Bits)
    requires BooksValid(b) && 1 <= max <= 32 && last <= 32 && BandsDec(b, key, max, last, s).Got?
    ensures key ==> BandsDec(b, key, max, last, s) == LogDec(s, max)
    ensures !key ==>
              var p := BookDec(b.bands, s);
              p.Got? && BandsDec(b, key, max, last, s) == Got(if last + p.value > 32 then last + p.value - 33 else last + p.value, p.rest)
    ensures BandsDec(b, key, max, last, s).value <= 32
  {
    hide LogDec, BookDec, BookValid;
  }

  method ReadBands(r: BitReader, b: Books, key: bool, max: nat, last: nat) returns (used: nat)
    requires SymsOk(b) && BooksValid(b) && 1 <= max <= 32 && last <= 32 && r.Valid()
    requires var p := BandsDec(b, key, max, last, r.Remaining()); p.Got? && |p.rest| >= 24
    modifies r`pos, r`count
    ensures r.Valid() && used <= 32 && BandsDec(b, key, max, last, old(r.Remaining())) == Got(used, r.Remaining())
  {
    hide *;
    BooksAre(b);
    BandsDecCases(b, key, max, last, r.Remaining());
    if key {
      used := LogDecode(r, max);
    } else {
      BookRest(b.bands, r.Remaining());
      var i := ReadPlain(r, b.bands);
      used := last + i;
      if used > 32 { used := used - 33; }
    }
  }

  lemma BookRest(book: Book, s: Bits)
    ensures BookDec(book, s).Got? ==> |BookDec(book, s).rest| <= |s|
  {
    hide BookDec;
  }

  lemma ResPairParts(b: Books, al: int, ar: int, s: Bits)
    requires BooksValid(b) && -1 <= al <= 15 && -1 <= ar <= 15 && ResPairDec(b, al, ar, s).Got?
    ensures var p := BookDec(DecResBook(b, al), s);
            && p.Got?
            && var t := BookDec(DecResBook(b, ar), p.rest);
            && t.Got? && ResPairDec(b, al, ar, s) == Got((Unwrap17(p.value + al), Unwrap17(t.value + ar)), t.rest)
  {
    hide BookDec, DecResBook, Unwrap17;
  }

  lemma DecResBookIs(b: Books, above: int)
    requires BooksValid(b)
    ensures |b.res| == 2 && DecResBook(b, above) == b.res[if above > 2 then 1 else 0]
  {
    hide BookValid;
  }

  method ReadRes(r: BitReader, b: Books, above: int) returns (v: int)
    requires SymsOk(b) && BooksValid(b) && -1 <= above <= 15 && r.Valid() && |r.Remaining()| >= 24
    modifies r`pos, r`count
    ensures r.Valid()
    ensures var p := BookDec(DecResBook(b, above), old(r.Remaining()));
            p.Got? && p.rest == r.Remaining() && v == Unwrap17(p.value + above)
  {
    hide *;
    BooksAre(b);
    DecResBookIs(b, above);
    Unwrap17Is();
    var i := ReadPlain(r, b.res[if above > 2 then 1 else 0]);
    v := i + above;
    if v > 15 { v := v - 17; }
  }

  lemma Unwrap17Is()
    ensures forall v :: Unwrap17(v) == if v > 15 then v - 17 else v
  {}

  lemma ResBelowParts(b: Books, s: Bits, n: nat, tl: int, tr: int)
    requires BooksValid(b) && -1 <= tl <= 15 && -1 <= tr <= 15 && n > 0 && ResBelowDec(b, s, n, tl, tr).Got?
    ensures var p := ResPairDec(b, tl, tr, s);
            && p.Got? && -1 <= p.value.0 <= 15 && -1 <= p.value.1 <= 15
            && var t := ResBelowDec(b, p.rest, n - 1, p.value.0, p.value.1);
            && t.Got? && |t.rest| <= |p.rest|
            && ResBelowDec(b, s, n, tl, tr) == Got((t.value.0 + [p.value.0], t.value.1 + [p.value.1]), t.rest)
  {
    hide ResPairDec, BookValid;
  }

  lemma ResBelowEnd(b: Books, s: Bits, tl: int, tr: int)
    requires BooksValid(b) && -1 <= tl <= 15 && -1 <= tr <= 15
    ensures ResBelowDec(b, s, 0, tl, tr) == Got(([], []), s)
  {}

  /** The resolutions, highest band first, each relative to the one above it. */
  method ReadResolutions(r: BitReader, b: Books, used: nat, was: seq<int>, was2: seq<int>) returns (l: seq<int>, t: seq<int>)
    requires SymsOk(b) && BooksValid(b) && used <= |was| == |was2| && r.Valid()
    requires var p := ResDec(b, r.Remaining(), used); p.Got? && |p.rest| >= 24
    modifies r`pos, r`count
    ensures r.Valid() && |l| == |was| && |t| == |was2|
    ensures ResDec(b, old(r.Remaining()), used) == Got((l[..used], t[..used]), r.Remaining())
    ensures l[used..] == was[used..] && t[used..] == was2[used..]
  {
    hide *;
    l, t := was, was2;
    ghost var whole := ResDec(b, r.Remaining(), used);
    ResDecIs(b, r.Remaining(), used);
    var n := used;
    var al, ar := 0, 0;
    NoTail(l, used);
    NoTail(t, used);
    ghost var part := ResBelowDec(b, r.Remaining(), n, al, ar);
    JoinNone(whole.value.0);
    JoinNone(whole.value.1);
    while n > 0
      invariant 0 <= n <= used && r.Valid() && |l| == |was| && |t| == |was2| && -1 <= al <= 15 && -1 <= ar <= 15
      invariant l[used..] == was[used..] && t[used..] == was2[used..]
      invariant part == ResBelowDec(b, r.Remaining(), n, al, ar) && part.Got? && |part.rest| >= 24
      invariant whole == Got((part.value.0 + l[n..used], part.value.1 + t[n..used]), part.rest)
    {
      ResBelowParts(b, r.Remaining(), n, al, ar);
      ResPairParts(b, al, ar, r.Remaining());
      BookRest(DecResBook(b, al), r.Remaining());
      BookRest(DecResBook(b, ar), BookDec(DecResBook(b, al), r.Remaining()).rest);
      RestBig(b, r.Remaining(), n, al, ar);
      var x := ReadRes(r, b, al);
      var y := ReadRes(r, b, ar);
      ghost var next := ResBelowDec(b, r.Remaining(), n - 1, x, y);
      SetBand(l, n - 1, used, x);
      SetBand(t, n - 1, used, y);
      Assoc(next.value.0, [x], l[n..used]);
      Assoc(next.value.1, [y], t[n..used]);
      l, t := l[n - 1 := x], t[n - 1 := y];
      al, ar := x, y;
      part := next;
      n := n - 1;
    }
    ResBelowEnd(b, r.Remaining(), al, ar);
    NoHead(l[..used]);
    NoHead(t[..used]);
    FromZero(l, used);
    FromZero(t, used);
  }

  lemma RestBig(b: Books, s: Bits, n: nat, tl: int, tr: int)
    requires BooksValid(b) && -1 <= tl <= 15 && -1 <= tr <= 15 && n > 0
    requires ResBelowDec(b, s, n, tl, tr).Got? && |ResBelowDec(b, s, n, tl, tr).rest| >= 24
    ensures |s| >= 24 && BookDec(DecResBook(b, tl), s).Got? && |BookDec(DecResBook(b, tl), s).rest| >= 24
  {
    hide *;
    ResBelowParts(b, s, n, tl, tr);
    ResPairParts(b, tl, tr, s);
    BookRest(DecResBook(b, tl), s);
    BookRest(DecResBook(b, tr), BookDec(DecResBook(b, tl), s).rest);
  }

  lemma NoTail<T>(s: seq<T>, n: nat)
    requires n <= |s|
    ensures s[n..n] == []
  {}

  lemma JoinNone<T>(s: seq<T>)
    ensures s + [] == s
  {}

  lemma NoHead<T>(s: seq<T>)
    ensures [] + s == s
  {}

  lemma FromZero<T>(s: seq<T>, n: nat)
    requires n <= |s|
    ensures s[0..n] == s[..n]
  {}

  lemma SetBand<T>(s: seq<T>, n: nat, used: nat, v: T)
    requires n < used <= |s|
    ensures s[n := v][n..used] == [v] + s[n + 1..used] && s[n := v][used..] == s[used..] && |s[n := v]| == |s|
  {}

  lemma MsDecParts(l: seq<int>, r: seq<int>, used: nat, s: Bits)
    requires used <= 32 && used <= |l| && used <= |r| && MsDec(l, r, used, s).Got?
    ensures var tot := CountCoded(l, r, 0, used);
            && tot <= 32
            && var p := LogDec(s, tot);
            && p.Got? && p.value <= tot && MsDec(l, r, used, s) == MaskDec(p.rest, p.value, tot)
  {
    LogTotal(s, CountCoded(l, r, 0, used));
    hide LogDec, MaskDec, CountCoded;
  }

  lemma {:induction false} CountSnoc(l: seq<int>, r: seq<int>, k: nat, n: nat)
    requires k <= n < |l| && n < |r|
    ensures CountCoded(l, r, k, n + 1) == CountCoded(l, r, k, n) + (if l[n] != 0 || r[n] != 0 then 1 else 0)
    decreases n - k
  {
    if k < n {
      CountSnoc(l, r, k + 1, n);
    } else {
      assert CountCoded(l, r, n, n) == 0 && CountCoded(l, r, n + 1, n + 1) == 0;
    }
  }

  lemma CountNone(l: seq<int>, r: seq<int>, k: nat)
    requires k <= |l| && k <= |r|
    ensures CountCoded(l, r, k, k) == 0
  {}

  lemma CountFirst(l: seq<int>, r: seq<int>, k: nat, used: nat)
    requires k < used <= |l| && used <= |r|
    ensures CountCoded(l, r, k, used) == (if l[k] != 0 || r[k] != 0 then 1 else 0) + CountCoded(l, r, k + 1, used)
  {}

  lemma SpreadStep(l: seq<int>, r: seq<int>, mask: Bits, was: seq<bool>, k: nat, used: nat)
    requires k < used <= |l| && used <= |r| && used <= |was| && |mask| == CountCoded(l, r, k, used)
    ensures l[k] != 0 || r[k] != 0 ==>
              |mask| >= 1 && |mask[1..]| == CountCoded(l, r, k + 1, used)
              && Spread(l, r, mask, was, k, used) == [mask[0]] + Spread(l, r, mask[1..], was, k + 1, used)
    ensures !(l[k] != 0 || r[k] != 0) ==>
              |mask| == CountCoded(l, r, k + 1, used)
              && Spread(l, r, mask, was, k, used) == [was[k]] + Spread(l, r, mask, was, k + 1, used)
  {}

  lemma SpreadDone(l: seq<int>, r: seq<int>, was: seq<bool>, used: nat)
    requires used <= |l| && used <= |r| && used <= |was| && CountCoded(l, r, used, used) == 0
    ensures Spread(l, r, [], was, used, used) == was[used..]
  {}

  /** The lowest bit of the register is the last flag of the mask. */
  lemma LastBit(reg: nat, c: nat)
    requires c > 0
    ensures Enc(reg, c) == Enc(reg / 2, c - 1) + [reg % 2 == 1]
  {}

  lemma Pieces<T>(s: seq<T>, c: nat)
    requires 0 < c <= |s|
    ensures s[..c][..c - 1] == s[..c - 1] && s[..c][c - 1] == s[c - 1] && s[c - 1..] == [s[c - 1]] + s[c..]
    ensures s[c - 1..][0] == s[c - 1] && s[c - 1..][1..] == s[c..]
  {}

  lemma SetFlag<T>(s: seq<T>, n: nat, v: T)
    requires n < |s|
    ensures s[n := v][..n] == s[..n] && s[n := v][n..] == [v] + s[n + 1..]
    ensures s[n..] == [s[n]] + s[n + 1..] && |s[n := v]| == |s|
  {}

  lemma TakeTake<T>(s: seq<T>, t: seq<T>, n: nat)
    requires n < |s| && n < |t| && s[..n + 1] == t[..n + 1]
    ensures s[..n] == t[..n] && s[n] == t[n]
  {
    assert s[..n + 1][..n] == s[..n] && t[..n + 1][..n] == t[..n];
    assert s[..n + 1][n] == t[..n + 1][n];
  }

  /** The flags go back to their bands, highest band first. */
  method PlaceFlags(l: seq<int>, t: seq<int>, used: nat, was: seq<bool>, reg0: nat, ghost mask: Bits) returns (ms: seq<bool>)
    requires used <= |l| && used <= |t| && used <= |was| && |mask| == CountCoded(l, t, 0, used) && mask == Enc(reg0, |mask|)
    ensures ms == Spread(l, t, mask, was, 0, used)
  {
    hide *;
    ms := was;
    var reg, n := reg0, used;
    ghost var c := |mask|;
    CountNone(l, t, used);
    CountNone(l, t, 0);
    SpreadDone(l, t, was, used);
    WholeSeq(mask);
    while n > 0
      invariant 0 <= n <= used && |ms| == |was| && ms[..n] == was[..n]
      invariant 0 <= c <= |mask| && c == CountCoded(l, t, 0, n) && |mask| - c == CountCoded(l, t, n, used)
      invariant ms[n..] == Spread(l, t, mask[c..], was, n, used)
      invariant Enc(reg, c) == mask[..c]
    {
      CountSnoc(l, t, 0, n - 1);
      CountFirst(l, t, n - 1, used);
      TakeTake(ms, was, n - 1);
      ghost var v := reg % 2 == 1;
      SetFlag(ms, n - 1, v);
      if l[n - 1] != 0 || t[n - 1] != 0 {
        LastBit(reg, c);
        Pieces(mask, c);
        Pieces(Enc(reg, c), c);
        TakePrefix(Enc(reg / 2, c - 1), [v]);
        SpreadStep(l, t, mask[c - 1..], was, n - 1, used);
        ms := ms[n - 1 := reg % 2 == 1];
        reg := reg / 2;
        c := c - 1;
      } else {
        SpreadStep(l, t, mask[c..], was, n - 1, used);
      }
      n := n - 1;
    }
    FromStart(mask);
    FromStart(ms);
  }

  lemma FromStart<T>(s: seq<T>)
    ensures s[0..] == s
  {}

  lemma MsPartParts(msOn: bool, l: seq<int>, r: seq<int>, used: nat, was: seq<bool>, s: Bits)
    requires used <= 32 && used <= |l| && used <= |r| && |was| == 32
    ensures msOn && used > 0 ==>
              var p := MsDec(l, r, used, s);
              (MsPartDec(msOn, l, r, used, was, s).Got? <==> p.Got?)
              && (p.Got? ==> MsPartDec(msOn, l, r, used, was, s) == Got(Spread(l, r, p.value, was, 0, used), p.rest))
    ensures !(msOn && used > 0) ==> MsPartDec(msOn, l, r, used, was, s) == Got(was, s)
  {
    hide MsDec, Spread;
  }

  method ReadMs(rd: BitReader, msOn: bool, l: seq<int>, t: seq<int>, used: nat, was: seq<bool>) returns (ms: seq<bool>)
    requires used <= 32 && used <= |l| && used <= |t| && |was| == 32 && rd.Valid()
    requires MsPartDec(msOn, l, t, used, was, rd.Remaining()).Got?
    modifies rd`pos, rd`count
    ensures rd.Valid() && |ms| == 32 && MsPartDec(msOn, l, t, used, was, old(rd.Remaining())) == Got(ms, rd.Remaining())
  {
    hide *;
    MsPartParts(msOn, l, t, used, was, rd.Remaining());
    ms := was;
    if used > 0 && msOn {
      MsDecParts(l, t, used, rd.Remaining());
      var tot: nat, n: nat := 0, 0;
      CountNone(l, t, 0);
      while n < used
        invariant 0 <= n <= used && tot == CountCoded(l, t, 0, n)
        modifies {}
      {
        CountSnoc(l, t, 0, n);
        if l[n] != 0 || t[n] != 0 { tot := tot + 1; }
        n := n + 1;
      }
      var cnt := LogDecode(rd, tot);
      var reg := ReadMask(rd, cnt, tot);
      ms := PlaceFlags(l, t, used, was, reg, Enc(reg, tot));
    }
  }

  // ----- scalefactors -----

  lemma ScfiDecCases(b: Books, resL: int, resR: int, s: Bits)
    requires BooksValid(b) && ScfiDec(b, resL, resR, s).Got?
    ensures |b.scfi| == 2
    ensures resL != 0 && resR != 0 ==>
              var p := BookDec(b.scfi[1], s); p.Got? && ScfiDec(b, resL, resR, s) == Got((p.value / 4, p.value % 4), p.rest)
    ensures resL != 0 && resR == 0 ==>
              var p := BookDec(b.scfi[0], s); p.Got? && ScfiDec(b, resL, resR, s) == Got((p.value, 0), p.rest)
    ensures resL == 0 && resR != 0 ==>
              var p := BookDec(b.scfi[0], s);
              p.Got? && p.value < 4 && ScfiDec(b, resL, resR, s) == Got((0, p.value), p.rest)
    ensures resL == 0 && resR == 0 ==> ScfiDec(b, resL, resR, s) == Got((0, 0), s)
  {
    hide BookDec, BookValid;
  }

  method ReadScfi(r: BitReader, b: Books, resL: int, resR: int) returns (x: (nat, nat))
    requires SymsOk(b) && BooksValid(b) && r.Valid() && ScfiDec(b, resL, resR, r.Remaining()).Got?
    requires |r.Remaining()| >= 24
    modifies r`pos, r`count
    ensures r.Valid() && ScfiDec(b, resL, resR, old(r.Remaining())) == Got(x, r.Remaining())
  {
    hide *;
    BooksAre(b);
    ScfiDecCases(b, resL, resR, r.Remaining());
    var cnt := -1;
    if resL != 0 { cnt := cnt + 1; }
    if resR != 0 { cnt := cnt + 1; }
    var l: nat, t: nat := 0, 0;
    if cnt >= 0 {
      var tmp := ReadPlain(r, b.scfi[cnt]);
      if resL != 0 { l := if cnt == 1 then tmp / 4 else tmp; }
      if resR != 0 { t := tmp % 4; }
    }
    x := (l, t);
  }

  lemma AllScfiParts(b: Books, l: seq<int>, r: seq<int>, k: nat, used: nat, s: Bits)
    requires BooksValid(b) && k < used <= |l| && used <= |r| && AllScfiDec(b, l, r, k, used, s).Got?
    ensures var p := ScfiDec(b, l[k], r[k], s);
            && p.Got?
            && var next := AllScfiDec(b, l, r, k + 1, used, p.rest);
            && next.Got? && |next.rest| <= |p.rest| <= |s|
            && AllScfiDec(b, l, r, k, used, s) == Got([p.value] + next.value, next.rest)
  {
    hide BooksValid, ScfiDec;
  }

  lemma AllScfiEnd(b: Books, l: seq<int>, r: seq<int>, used: nat, s: Bits)
    requires BooksValid(b) && used <= |l| && used <= |r|
    ensures AllScfiDec(b, l, r, used, used, s) == Got([], s)
  {}

  method ReadScfis(rd: BitReader, b: Books, l: seq<int>, t: seq<int>, used: nat) returns (xs: seq<(nat, nat)>)
    requires SymsOk(b) && BooksValid(b) && used <= |l| && used <= |t| && rd.Valid()
    requires var p := AllScfiDec(b, l, t, 0, used, rd.Remaining()); p.Got? && |p.rest| >= 24
    modifies rd`pos, rd`count
    ensures rd.Valid() && AllScfiDec(b, l, t, 0, used, old(rd.Remaining())) == Got(xs, rd.Remaining()) && |xs| == used
  {
    hide *;
    ghost var whole := AllScfiDec(b, l, t, 0, used, rd.Remaining());
    ReadsStart(whole);
    xs := [];
    var n := 0;
    while n < used
      invariant 0 <= n <= used && |xs| == n && rd.Valid()
      invariant Reads(whole, xs, AllScfiDec(b, l, t, n, used, rd.Remaining()))
    {
      ghost var part := AllScfiDec(b, l, t, n, used, rd.Remaining());
      ReadsRest(whole, xs, part);
      AllScfiParts(b, l, t, n, used, rd.Remaining());
      var x := ReadScfi(rd, b, l[n], t[n]);
      ReadsMore(whole, xs, part, [x], AllScfiDec(b, l, t, n + 1, used, rd.Remaining()));
      xs := xs + [x];
      n := n + 1;
    }
    AllScfiEnd(b, l, t, used, rd.Remaining());
    ReadsDone(whole, xs, AllScfiDec(b, l, t, used, used, rd.Remaining()), rd.Remaining());
  }

  lemma EscapedParts(book: Book, escape: nat, s: Bits)
    requires EscapedDec(book, escape, s).Got?
    ensures var p := BookDec(book, s);
            && p.Got? && (p.value != escape ==> EscapedDec(book, escape, s) == p)
            && (p.value == escape ==>
                  Take(p.rest, 6).Got? && EscapedDec(book, escape, s) == Got(64 + Take(p.rest, 6).value, Take(p.rest, 6).rest))
  {
    hide BookDec, Take;
  }

  method ReadEscaped(r: BitReader, book: Book, escape: nat) returns (tmp: nat)
    requires BookValid(book) && Plain(book) && r.Valid() && EscapedDec(book, escape, r.Remaining()).Got?
    requires |r.Remaining()| >= 24
    modifies r`pos, r`count
    ensures r.Valid() && EscapedDec(book, escape, old(r.Remaining())) == Got(tmp, r.Remaining())
  {
    hide *;
    EscapedParts(book, escape, r.Remaining());
    tmp := ReadPlain(r, book);
    if tmp == escape {
      var low := ReadField(r, 6);
      tmp := 64 + low;
    }
  }

  lemma TripleParts(b: Books, flag: bool, last: int, scfi: nat, s: Bits)
    requires BooksValid(b) && TripleDec(b, flag, last, scfi, s).Got?
    ensures var p := FirstDec(b, flag, last, s);
            && p.Got?
            && var q := NextDec(b, scfi / 2 % 2 == 1, p.value, p.rest);
            && q.Got?
            && var t := NextDec(b, scfi % 2 == 1, q.value, q.rest);
            && t.Got? && |t.rest| <= |q.rest| <= |p.rest| <= |s|
            && TripleDec(b, flag, last, scfi, s) == Got(Scf(p.value, q.value, t.value), t.rest)
  {
    hide BooksValid, FirstDec, NextDec;
  }

  lemma FirstParts(b: Books, flag: bool, last: int, s: Bits)
    requires BooksValid(b) && FirstDec(b, flag, last, s).Got?
    ensures |b.dscf| == 2
    ensures flag ==> Take(s, 7).Got? && FirstDec(b, flag, last, s) == Got(Take(s, 7).value - 6, Take(s, 7).rest)
    ensures !flag ==>
              var p := EscapedDec(b.dscf[1], 64, s);
              p.Got? && FirstDec(b, flag, last, s) == Got((last - 25 + p.value) % 128 - 6, p.rest)
  {
    hide BookValid, EscapedDec, Take;
  }

  lemma NextParts(b: Books, same: bool, a: int, s: Bits)
    requires BooksValid(b) && NextDec(b, same, a, s).Got?
    ensures |b.dscf| == 2
    ensures same ==> NextDec(b, same, a, s) == Got(a, s)
    ensures !same ==>
              var p := EscapedDec(b.dscf[0], 31, s);
              p.Got? && NextDec(b, same, a, s) == Got((a - 25 + p.value) % 128 - 6, p.rest)
  {
    hide BookValid, EscapedDec;
  }

  method ReadNext(r: BitReader, b: Books, same: bool, a: int) returns (v: int)
    requires SymsOk(b) && BooksValid(b) && r.Valid() && NextDec(b, same, a, r.Remaining()).Got?
    requires |r.Remaining()| >= 24
    modifies r`pos, r`count
    ensures r.Valid() && NextDec(b, same, a, old(r.Remaining())) == Got(v, r.Remaining())
  {
    hide *;
    BooksAre(b);
    NextParts(b, same, a, r.Remaining());
    if !same {
      var tmp := ReadEscaped(r, b.dscf[0], 31);
      v := (a - 25 + tmp) % 128 - 6;
    } else {
      v := a;
    }
  }

  /** The three scalefactors of a band, given what they are relative to and which of them are equal. */
  method ReadTriple(r: BitReader, b: Books, flag: bool, last: int, scfi: nat) returns (t: Scf)
    requires SymsOk(b) && BooksValid(b) && r.Valid()
    requires var p := TripleDec(b, flag, last, scfi, r.Remaining()); p.Got? && |p.rest| >= 24
    modifies r`pos, r`count
    ensures r.Valid() && TripleDec(b, flag, last, scfi, old(r.Remaining())) == Got(t, r.Remaining())
  {
    hide *;
    BooksAre(b);
    TripleParts(b, flag, last, scfi, r.Remaining());
    FirstParts(b, flag, last, r.Remaining());
    var x: int;
    if flag {
      var v := ReadField(r, 7);
      x := v as int - 6;
    } else {
      var tmp := ReadEscaped(r, b.dscf[1], 64);
      x := (last - 25 + tmp) % 128 - 6;
    }
    var y := ReadNext(r, b, scfi / 2 % 2 == 1, x);
    var z := ReadNext(r, b, scfi % 2 == 1, y);
    t := Scf(x, y, z);
  }
}
