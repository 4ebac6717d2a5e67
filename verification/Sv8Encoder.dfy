/** The frame encoder, step by step: each loop appends exactly the bits its specification names. */
module Sv8Encoding {
  import opened BitStrings
  import opened BitWriting
  import opened Integers
  import opened Enumerative
  import opened Codebooks
  import opened Sv8Samples
  import opened Sv8Header
  import opened Sv8Scf
  import opened Sv8Frame
  import opened Sv8Memory

  lemma Assoc4<T>(s: seq<T>, a: seq<T>, b: seq<T>, c: seq<T>)
    ensures s + a + b + c == s + (a + (b + c))
  {}

  lemma NoBits(s: Bits)
    ensures s + [] == s
  {}

  lemma WholeSeq<T>(q: seq<T>)
    ensures q[..|q|] == q && q[0..] == q && q[|q|..] == []
  {}

  // ----- resolution 1 -----

  lemma {:induction false} NonzeroSnoc(q: seq<int>, v: int)
    ensures Nonzero(q + [v]) == Nonzero(q) + [v != 1]
  {
    if q == [] {
      assert q + [v] == [v];
    } else {
      NonzeroSnoc(q[1..], v);
      assert (q + [v])[1..] == q[1..] + [v];
    }
  }

  lemma {:induction false} SignsSnoc(q: seq<int>, v: int)
    ensures Signs(q + [v]) == Signs(q) + (if v != 1 then [v >= 2] else [])
  {
    if q == [] {
      assert q + [v] == [v];
    } else {
      SignsSnoc(q[1..], v);
      assert (q + [v])[1..] == q[1..] + [v];
      SignsHead(q);
      SignsHead(q + [v]);
      hide *;
      Assoc(if q[0] != 1 then [q[0] >= 2] else [], Signs(q[1..]), if v != 1 then [v >= 2] else []);
    }
  }

  lemma SignsHead(q: seq<int>)
    requires q != []
    ensures Signs(q) == (if q[0] != 1 then [q[0] >= 2] else []) + Signs(q[1..])
  {}

  lemma {:induction false} OnesSnoc(b: Bits, v: bool)
    ensures Ones(b + [v]) == Ones(b) + Bit(v)
  {
    if b == [] {
      assert b + [v] == [v];
    } else {
      OnesSnoc(b[1..], v);
      assert (b + [v])[1..] == b[1..] + [v];
    }
  }

  lemma ValSnoc(b: Bits, v: bool)
    ensures Val(b + [v]) == 2 * Val(b) + Bit(v)
  {
    assert (b + [v])[..|b|] == b;
  }

  lemma EncBit(v: bool)
    ensures Enc(Bit(v), 1) == [v] && Bit(v) < Pow2(1) && (v ==> Bit(v) == 1) && (!v ==> Bit(v) == 0)
  {
    assert Enc(Bit(v), 1) == Enc(Bit(v) / 2, 0) + [v];
  }

  /** Shifting one flag into a mask register. */
  lemma FlagIn(reg: nat, n: nat, v: bool)
    requires n < 32
    ensures Enc(ShlOr(reg, 1, Bit(v)), n + 1) == Enc(reg, n) + [v] && ShlOr(reg, 1, Bit(v)) < 0x1_0000_0000
  {
    hide Enc, Low, Shl, Pow2;
    EncBit(v);
    Pow2Facts();
    ShlOrAppends(reg, n, 1, Bit(v));
  }

  lemma {:induction false} NotSnoc(b: Bits, v: bool)
    ensures Not(b + [v]) == Not(b) + [!v]
  {
    if b == [] {
      assert b + [v] == [v];
    } else {
      NotSnoc(b[1..], v);
      assert (b + [v])[1..] == b[1..] + [v];
    }
  }

  /** Complementing a register complements every bit of the mask. */
  lemma {:induction false} Complement(v: nat, m: nat, n: nat)
    requires v < Pow2(m) && n <= m
    ensures Enc(Pow2(m) - 1 - v, n) == Not(Enc(v, n))
  {
    if n != 0 {
      Complement(v / 2, m - 1, n - 1);
      NotSnoc(Enc(v / 2, n - 1), v % 2 == 1);
    }
  }

  lemma Complement32(v: nat, n: nat)
    requires v < 0x1_0000_0000 && n <= 32
    ensures Enc(0xFFFF_FFFF - v, n) == Not(Enc(v, n))
  {
    hide Enc, Not, Pow2;
    Pow2Facts();
    Complement(v, 32, n);
  }

  lemma HalfStart(reg: nat)
    ensures Enc(reg, 0) == Nonzero([]) && Ones(Nonzero([])) == 0 && Val(Signs([])) == 0
  {}

  lemma HalfStep(q: seq<int>, k: nat, reg: nat)
    requires k < |q| && k < 32 && Quantised(1, q)
    ensures Enc(reg, k) == Nonzero(q[..k]) ==>
              Enc(ShlOr(reg, 1, Bit(q[k] != 1)), k + 1) == Nonzero(q[..k + 1])
    ensures ShlOr(reg, 1, Bit(q[k] != 1)) < 0x1_0000_0000
    ensures Ones(Nonzero(q[..k + 1])) == Ones(Nonzero(q[..k])) + (if q[k] != 1 then 1 else 0)
    ensures Val(Signs(q[..k + 1])) == (if q[k] != 1 then 2 * Val(Signs(q[..k])) + q[k] / 2 else Val(Signs(q[..k])))
    ensures q[k] / 2 >= 0
  {
    assert 0 <= q[k] <= 2;
    assert q[..k + 1] == q[..k] + [q[k]];
    var h := q[..k];
    hide Enc, ShlOr, Nonzero, Ones, Signs, Val, Quantised;
    FlagIn(reg, k, q[k] != 1);
    NonzeroSnoc(h, q[k]);
    SignsSnoc(h, q[k]);
    OnesSnoc(Nonzero(h), q[k] != 1);
    ValSnoc(Signs(h), q[k] >= 2);
    NoBits(Signs(h));
  }

  /** The mask register, complemented when that leaves fewer ones, is the mask that is sent. */
  lemma MinorityReg(mask: Bits, reg: nat)
    requires |mask| <= 32 && Enc(reg, |mask|) == mask && reg < 0x1_0000_0000
    ensures var r := if 2 * Ones(mask) > |mask| then 0xFFFF_FFFF - reg else reg; Enc(r, |mask|) == Minority(mask)
  {
    hide Enc, Not, Ones;
    Complement32(reg, |mask|);
  }

  lemma EnumNone(b: Bits)
    requires |b| <= 32 && Ones(b) == 0
    ensures EnumBits(b) == []
  {}

  lemma NoMask(b: Bits)
    requires |b| <= 32 && Ones(b) == 0
    ensures MaskBits(b) == []
  {
    hide Enc;
    NotNot(b);
    EnumNone(Minority(b));
  }

  lemma SignBits(q: seq<int>)
    ensures Enc(Val(Signs(q)), |Signs(q)|) == Signs(q) && |Signs(q)| == Ones(Nonzero(q)) <= |q|
    ensures Val(Signs(q)) < Pow2(|Signs(q)|)
  {
    hide Enc, Val, Signs, Nonzero;
    EncVal(Signs(q));
  }

  /** One half of a band at resolution 1. The mask register keeps what earlier halves left above the mask. */
  method WriteHalf(e: BitWriter, q1: Book, q: seq<int>, idx0: nat) returns (idx: nat)
    requires BookValid(q1) && |q1.enc| == 19 && |q| == 18 && Quantised(1, q)
    requires e.Valid() && e.Free() >= |HalfBits(q1, q)| && idx0 < 0x1_0000_0000
    modifies e, e.buffer
    ensures e.Valid() && e.buffer == old(e.buffer) && idx < 0x1_0000_0000
    ensures e.Contents() == old(e.Contents()) + HalfBits(q1, q) && e.Free() == old(e.Free()) - |HalfBits(q1, q)|
  {
    hide *;
    var cnt: nat, sng: nat, k: nat := 0, 0, 0;
    idx := idx0;
    HalfStart(idx);
    assert q[..0] == [];
    while k < 18
      invariant 0 <= k <= 18 && idx < 0x1_0000_0000
      invariant Enc(idx, k) == Nonzero(q[..k])
      invariant cnt == Ones(Nonzero(q[..k])) && sng == Val(Signs(q[..k]))
      modifies {}
    {
      HalfStep(q, k, idx);
      idx := ShlOr(idx, 1, Bit(q[k] != 1));
      if q[k] != 1 {
        cnt := cnt + 1;
        sng := 2 * sng + q[k] / 2;
      }
      k := k + 1;
    }
    WholeSeq(q);
    ghost var mask := Nonzero(q);
    ghost var w, m, g := Word(q1, cnt), MaskBits(mask), Signs(q);
    SignBits(q);
    HalfIs(q1, q, []);
    MaskBitsIs(mask);
    Assoc4(e.Contents(), w, m, g);
    ghost var start := e.Contents();
    BookWrite(e, q1, cnt);
    if cnt > 0 {
      MinorityReg(mask, idx);
      if cnt > 9 { idx := 0xFFFF_FFFF - idx; }
      EncodeEnum(e, idx, 18);
      assert e.Contents() == start + w + m;
      e.WriteBits(sng, cnt);
    } else {
      NoMask(mask);
      NoBits(start + w);
      EmptySeq(g);
    }
  }

  lemma EmptySeq<T>(s: seq<T>)
    ensures |s| == 0 ==> s == []
  {}

  // ----- resolutions 2 to 15 -----

  method WriteGroups(e: BitWriter, b: SampleBooks, res: int, q: seq<int>)
    requires SampleBooksValid(b) && 2 <= res <= 8 && |q| == 36 && Quantised(res, q)
    requires e.Valid() && e.Free() >= |GroupsBits(b, res, q, EncFirst(res))|
    modifies e, e.buffer
    ensures e.Valid() && e.buffer == old(e.buffer)
    ensures e.Contents() == old(e.Contents()) + GroupsBits(b, res, q, EncFirst(res))
    ensures e.Free() == old(e.Free()) - |GroupsBits(b, res, q, EncFirst(res))|
  {
    hide *;
    var k: nat, idx: nat, n: nat := 0, EncFirst(res), Group(res);
    GroupSizes(res);
    ghost var target := e.Contents() + GroupsBits(b, res, q, idx);
    ghost var left: nat := 36 / n;
    WholeSeq(q);
    while k < 36
      invariant 0 <= k <= 36 && 36 - k == Total(res, left) && Quantised(res, q[k..])
      invariant e.Valid() && e.buffer == old(e.buffer)
      invariant e.Contents() + GroupsBits(b, res, q[k..], idx) == target
      invariant e.Free() - |GroupsBits(b, res, q[k..], idx)| == old(e.Free()) - |GroupsBits(b, res, q, EncFirst(res))|
      decreases 36 - k
    {
      ghost var tail := q[k..];
      TotalPos(res, left);
      GroupsStep(b, res, tail, left, idx);
      DropTake(q, k, n);
      DropDrop(q, k, n);
      var t := GroupIndex(res, q[k..k + n]);
      var book := EncBook(b, res, idx);
      BookOfValid(book, Words(res));
      Assoc(e.Contents(), Word(book, t), GroupsBits(b, res, q[k + n..], EncCtx(res, idx, t)));
      BookWrite(e, book, t);
      idx := EncCtx(res, idx, t);
      k := k + n;
      left := left - 1;
    }
    WholeSeq(q);
    NoGroups(b, res, idx);
    NoBits(e.Contents());
  }

  lemma NoGroups(b: SampleBooks, res: int, idx: nat)
    requires SampleBooksValid(b) && 2 <= res <= 8 && Quantised(res, [])
    ensures GroupsBits(b, res, [], idx) == []
  {}

  lemma GroupSizes(res: int)
    requires 2 <= res <= 8
    ensures 1 <= Group(res) <= 3 && 36 / Group(res) >= 0 && Total(res, 36 / Group(res)) == 36
  {}

  lemma TotalPos(res: int, k: nat)
    requires Total(res, k) > 0
    ensures k > 0
  {}

  lemma LowBits(v: nat, n: nat)
    ensures Enc(Low(v, n), n) == Enc(v, n) && Low(v, n) < Pow2(n)
  {
    EncLow(v, n, n);
  }

  method WritePlain(e: BitWriter, q9up: Book, res: int, q: seq<int>)
    requires BookOf(q9up, 256) && |q9up.enc| == 256 && 9 <= res <= 15 && |q| == 36 && Quantised(res, q)
    requires e.Valid() && e.Free() >= |PlainBits(q9up, res, q)|
    modifies e, e.buffer
    ensures e.Valid() && e.buffer == old(e.buffer)
    ensures e.Contents() == old(e.Contents()) + PlainBits(q9up, res, q)
    ensures e.Free() == old(e.Free()) - |PlainBits(q9up, res, q)|
  {
    hide *;
    var k: nat := 0;
    ghost var target := e.Contents() + PlainBits(q9up, res, q);
    WholeSeq(q);
    BookOfValid(q9up, 256);
    while k < 36
      invariant 0 <= k <= 36 && Quantised(res, q[k..])
      invariant e.Valid() && e.buffer == old(e.buffer)
      invariant e.Contents() + PlainBits(q9up, res, q[k..]) == target
      invariant e.Free() - |PlainBits(q9up, res, q[k..])| == old(e.Free()) - |PlainBits(q9up, res, q)|
    {
      DropDrop(q, k, 1);
      PlainStep(q9up, res, q[k..], []);
      ghost var more := PlainBits(q9up, res, q[k + 1..]);
      NoBits(more);
      NoBits(PlainBits(q9up, res, q[k..]));
      var hi := Shr(q[k], res - 9);
      LowBits(q[k], res - 9);
      Assoc4(e.Contents(), Word(q9up, hi), Enc(q[k], res - 9), more);
      ghost var before := e.Contents();
      BookWrite(e, q9up, hi);
      if res != 9 {
        e.WriteBits(Low(q[k], res - 9), res - 9);
      } else {
        EmptySeq(Enc(q[k], 0));
        NoBits(before + Word(q9up, hi));
      }
      assert e.Contents() == before + Word(q9up, hi) + Enc(q[k], res - 9);
      k := k + 1;
    }
    WholeSeq(q);
    NoPlain(q9up, res);
    NoBits(e.Contents());
  }

  lemma NoPlain(q9up: Book, res: int)
    requires 9 <= res <= 15 && |q9up.enc| == 256 && Quantised(res, [])
    ensures PlainBits(q9up, res, []) == []
  {}

  /** The samples of one band and channel. */
  method WriteBand(e: BitWriter, b: SampleBooks, res: int, q: seq<int>)
    requires SampleBooksValid(b) && BandOk(res, q) && e.Valid() && e.Free() >= |SampleBits(b, res, q)|
    modifies e, e.buffer
    ensures e.Valid() && e.buffer == old(e.buffer)
    ensures e.Contents() == old(e.Contents()) + SampleBits(b, res, q)
    ensures e.Free() == old(e.Free()) - |SampleBits(b, res, q)|
  {
    hide *;
    BandCases(b, res, q);
    if res <= 0 {
      NoBits(e.Contents());
    } else if res == 1 {
      var h0, h1 := q[..18], q[18..];
      Assoc(e.Contents(), HalfBits(b.q1, h0), HalfBits(b.q1, h1));
      var idx := WriteHalf(e, b.q1, h0, 1);
      idx := WriteHalf(e, b.q1, h1, idx);
    } else if res <= 8 {
      WriteGroups(e, b, res, q);
    } else {
      WritePlain(e, b.q9up, res, q);
    }
  }

  lemma BandCases(b: SampleBooks, res: int, q: seq<int>)
    requires SampleBooksValid(b) && BandOk(res, q)
    ensures -1 <= res <= 15 && (res <= 0 ==> SampleBits(b, res, q) == [])
    ensures res >= 1 ==> |q| == 36 && Quantised(res, q)
    ensures BookValid(b.q1) && |b.q1.enc| == 19 && BookOf(b.q9up, 256) && |b.q9up.enc| == 256
    ensures res == 1 ==>
              && Quantised(1, q[..18]) && Quantised(1, q[18..])
              && SampleBits(b, res, q) == HalfBits(b.q1, q[..18]) + HalfBits(b.q1, q[18..])
    ensures 2 <= res <= 8 ==> SampleBits(b, res, q) == GroupsBits(b, res, q, EncFirst(res))
    ensures 9 <= res ==> SampleBits(b, res, q) == PlainBits(b.q9up, res, q)
  {
    hide HalfBits, GroupsBits, PlainBits, BookValid, Dc;
  }

  // ----- side information -----

  method WriteRes(e: BitWriter, b: Books, above: int, v: int)
    requires BooksValid(b) && -1 <= above <= 15 && -1 <= v <= 15
    requires 0 <= Wrap17(v - above) < |EncResBook(b, above).enc|
    requires e.Valid() && e.Free() >= |Word(EncResBook(b, above), Wrap17(v - above))|
    modifies e, e.buffer
    ensures e.Valid() && e.buffer == old(e.buffer)
    ensures e.Contents() == old(e.Contents()) + Word(EncResBook(b, above), Wrap17(v - above))
    ensures e.Free() == old(e.Free()) - |Word(EncResBook(b, above), Wrap17(v - above))|
  {
    hide *;
    var tmp := v - above;
    if tmp < 0 { tmp := tmp + 17; }
    Wrap17Is(v - above);
    EncResBookOk(b, above);
    BookWrite(e, EncResBook(b, above), tmp);
  }

  lemma Wrap17Is(d: int)
    ensures Wrap17(d) == if d < 0 then d + 17 else d
  {}

  lemma EncResBookOk(b: Books, above: int)
    requires BooksValid(b)
    ensures BookValid(EncResBook(b, above)) && |EncResBook(b, above).enc| == 17
  {
    hide BookValid;
  }

  lemma ResPairIs(b: Books, al: int, ar: int, l: int, r: int)
    requires BooksValid(b) && -1 <= al <= 15 && -1 <= ar <= 15 && -1 <= l <= 15 && -1 <= r <= 15
    ensures 0 <= Wrap17(l - al) < |EncResBook(b, al).enc| && 0 <= Wrap17(r - ar) < |EncResBook(b, ar).enc|
    ensures ResPair(b, al, ar, l, r) == Word(EncResBook(b, al), Wrap17(l - al)) + Word(EncResBook(b, ar), Wrap17(r - ar))
  {
    hide BookValid;
  }

  /** Resolutions, from the highest used band down. */
  method WriteResolutions(e: BitWriter, b: Books, l: seq<int>, r: seq<int>, used: nat)
    requires BooksValid(b) && ResOk(l) && ResOk(r) && used <= 32 == |l| == |r|
    requires e.Valid() && e.Free() >= |ResBits(b, l, r, used)|
    modifies e, e.buffer
    ensures e.Valid() && e.buffer == old(e.buffer)
    ensures e.Contents() == old(e.Contents()) + ResBits(b, l, r, used)
    ensures e.Free() == old(e.Free()) - |ResBits(b, l, r, used)|
  {
    hide *;
    ghost var target := e.Contents() + ResBits(b, l, r, used);
    if used > 0 {
      ResBitsIs(b, l, r, used, []);
      ResPairIs(b, 0, 0, l[used - 1], r[used - 1]);
      Assoc4(e.Contents(), Word(EncResBook(b, 0), Wrap17(l[used - 1] - 0)), Word(EncResBook(b, 0), Wrap17(r[used - 1] - 0)),
             ResBelow(b, l, r, used - 1));
      Assoc(Word(EncResBook(b, 0), Wrap17(l[used - 1])), Word(EncResBook(b, 0), Wrap17(r[used - 1])), ResBelow(b, l, r, used - 1));
      WriteRes(e, b, 0, l[used - 1]);
      WriteRes(e, b, 0, r[used - 1]);
      var n := used - 1;
      while n > 0
        invariant 0 <= n < used
        invariant e.Valid() && e.buffer == old(e.buffer)
        invariant e.Contents() + ResBelow(b, l, r, n) == target
        invariant e.Free() - |ResBelow(b, l, r, n)| == old(e.Free()) - |ResBits(b, l, r, used)|
      {
        ResBelowStep(b, l, r, n, []);
        NoBits(ResBelow(b, l, r, n));
        NoBits(ResBelow(b, l, r, n - 1));
        ResPairIs(b, l[n], r[n], l[n - 1], r[n - 1]);
        var x, y, more := Word(EncResBook(b, l[n]), Wrap17(l[n - 1] - l[n])), Word(EncResBook(b, r[n]), Wrap17(r[n - 1] - r[n])),
                          ResBelow(b, l, r, n - 1);
        Assoc(x, y, more);
        Assoc4(e.Contents(), x, y, more);
        WriteRes(e, b, l[n], l[n - 1]);
        WriteRes(e, b, r[n], r[n - 1]);
        n := n - 1;
      }
      ResBelowDone(b, l, r);
    } else {
      ResBelowNone(b, l, r, [], 0, 0);
      ResBelowDone(b, l, r);
    }
    NoBits(e.Contents());
  }

  lemma ResBelowDone(b: Books, l: seq<int>, r: seq<int>)
    requires BooksValid(b) && ResOk(l) && ResOk(r)
    ensures ResBelow(b, l, r, 0) == []
  {}

  lemma {:induction false} MsMaskSnoc(l: seq<int>, r: seq<int>, ms: seq<bool>, k: nat, n: nat)
    requires k <= n < |l| && n < |r| && n < |ms|
    ensures MsMask(l, r, ms, k, n + 1) == MsMask(l, r, ms, k, n) + (if Coded(l, r, n) then [ms[n]] else [])
    ensures CountCoded(l, r, k, n + 1) == CountCoded(l, r, k, n) + (if Coded(l, r, n) then 1 else 0)
    decreases n - k
  {
    MsMaskStep(l, r, ms, k, n + 1);
    if k < n {
      MsMaskStep(l, r, ms, k, n);
      MsMaskSnoc(l, r, ms, k + 1, n);
      hide *;
      Assoc(if Coded(l, r, k) then [ms[k]] else [], MsMask(l, r, ms, k + 1, n), if Coded(l, r, n) then [ms[n]] else []);
    } else {
      assert MsMask(l, r, ms, n, n) == [] && MsMask(l, r, ms, n + 1, n + 1) == [];
    }
  }

  lemma MsMaskStep(l: seq<int>, r: seq<int>, ms: seq<bool>, k: nat, used: nat)
    requires k < used <= |l| && used <= |r| && used <= |ms|
    ensures MsMask(l, r, ms, k, used) == (if Coded(l, r, k) then [ms[k]] else []) + MsMask(l, r, ms, k + 1, used)
    ensures CountCoded(l, r, k, used) == (if Coded(l, r, k) then 1 else 0) + CountCoded(l, r, k + 1, used)
  {}

  lemma MsStart(l: seq<int>, r: seq<int>, ms: seq<bool>, reg: nat)
    ensures MsMask(l, r, ms, 0, 0) == [] && Enc(reg, 0) == [] && Ones([]) == 0
  {}

  lemma CodedIs(l: seq<int>, r: seq<int>, n: nat)
    requires n < |l| && n < |r|
    ensures Coded(l, r, n) == (l[n] != 0 || r[n] != 0)
  {}

  lemma MsBitsIs(l: seq<int>, r: seq<int>, ms: seq<bool>, used: nat)
    requires 0 < used <= 32 && used <= |l| && used <= |r| && used <= |ms| && Coded(l, r, used - 1)
    ensures var m := MsMask(l, r, ms, 0, used);
            && 1 <= |m| <= 32 && Ones(m) <= |m| && CountCoded(l, r, 0, used) >= 1
            && MsBits(l, r, ms, used) == LogBits(Ones(m), |m|) + MaskBits(m)
            && MsPart(true, l, r, ms, used) == MsBits(l, r, ms, used)
  {
    SomeCoded(l, r, 0, used, used - 1);
    hide LogBits, MaskBits, Ones, LogLen, LogLost;
  }

  method WriteMs(e: BitWriter, l: seq<int>, r: seq<int>, ms: seq<bool>, used: nat)
    requires 0 < used <= 32 && used <= |l| && used <= |r| && used <= |ms| && Coded(l, r, used - 1)
    requires e.Valid() && e.Free() >= |MsPart(true, l, r, ms, used)|
    modifies e, e.buffer
    ensures e.Valid() && e.buffer == old(e.buffer)
    ensures e.Contents() == old(e.Contents()) + MsPart(true, l, r, ms, used)
    ensures e.Free() == old(e.Free()) - |MsPart(true, l, r, ms, used)|
  {
    hide *;
    var tmp: nat, cnt: nat, tot: nat, n: nat := 0, 0, 0, 0;
    MsStart(l, r, ms, tmp);
    while n < used
      invariant 0 <= n <= used && tmp < 0x1_0000_0000 && tot <= n
      invariant tot == |MsMask(l, r, ms, 0, n)| && Enc(tmp, tot) == MsMask(l, r, ms, 0, n)
      invariant cnt == Ones(MsMask(l, r, ms, 0, n))
      modifies {}
    {
      MsMaskSnoc(l, r, ms, 0, n);
      CodedIs(l, r, n);
      if l[n] != 0 || r[n] != 0 {
        FlagIn(tmp, tot, ms[n]);
        OnesSnoc(MsMask(l, r, ms, 0, n), ms[n]);
        EncBit(ms[n]);
        tmp := ShlOr(tmp, 1, Bit(ms[n]));
        cnt := cnt + Bit(ms[n]);
        tot := tot + 1;
      } else {
        NoBits(MsMask(l, r, ms, 0, n));
      }
      n := n + 1;
    }
    ghost var m := MsMask(l, r, ms, 0, used);
    MsBitsIs(l, r, ms, used);
    MaskBitsIs(m);
    MinorityReg(m, tmp);
    Assoc(e.Contents(), LogBits(cnt, tot), MaskBits(m));
    EncodeLog(e, cnt, tot);
    if cnt * 2 > tot { tmp := 0xFFFF_FFFF - tmp; }
    EncodeEnum(e, tmp, tot);
  }

  method WriteBands(e: BitWriter, b: Books, key: bool, used: nat, max: nat, last: nat)
    requires BooksValid(b) && used <= max <= 32 && 1 <= max && last <= 32
    requires e.Valid() && e.Free() >= |BandsBits(b, key, used, max, last)|
    modifies e, e.buffer
    ensures e.Valid() && e.buffer == old(e.buffer)
    ensures e.Contents() == old(e.Contents()) + BandsBits(b, key, used, max, last)
    ensures e.Free() == old(e.Free()) - |BandsBits(b, key, used, max, last)|
  {
    hide *;
    BandsCases(b, key, used, max, last);
    if key {
      EncodeLog(e, used, max);
    } else {
      var n := used - last;
      if n < 0 { n := n + 33; }
      BookWrite(e, b.bands, n);
    }
  }

  lemma BandsCases(b: Books, key: bool, used: nat, max: nat, last: nat)
    requires BooksValid(b) && used <= max <= 32 && 1 <= max && last <= 32
    ensures key ==> BandsBits(b, key, used, max, last) == LogBits(used, max)
    ensures var n := if used < last then used - last + 33 else used - last;
            0 <= n < 33 && BookValid(b.bands) && |b.bands.enc| == 33
            && (!key ==> BandsBits(b, key, used, max, last) == Word(b.bands, n))
  {
    hide BookValid, LogBits;
  }

  // ----- scalefactors -----

  method WriteScfi(e: BitWriter, b: Books, resL: int, resR: int, l: Scf, r: Scf)
    requires BooksValid(b) && e.Valid() && e.Free() >= |ScfiBits(b, resL, resR, l, r)|
    modifies e, e.buffer
    ensures e.Valid() && e.buffer == old(e.buffer)
    ensures e.Contents() == old(e.Contents()) + ScfiBits(b, resL, resR, l, r)
    ensures e.Free() == old(e.Free()) - |ScfiBits(b, resL, resR, l, r)|
  {
    hide *;
    var tmp: nat, cnt := 0, -1;
    ScfiCases(b, resL, resR, l, r);
    if resL != 0 {
      tmp := 2 * Bit(l.b == l.a) + Bit(l.c == l.b);
      cnt := cnt + 1;
    }
    if resR != 0 {
      tmp := 4 * tmp + (2 * Bit(r.b == r.a) + Bit(r.c == r.b));
      cnt := cnt + 1;
    }
    if cnt >= 0 {
      BookWrite(e, b.scfi[cnt], tmp);
    } else {
      NoBits(e.Contents());
    }
  }

  lemma ScfiCases(b: Books, resL: int, resR: int, l: Scf, r: Scf)
    requires BooksValid(b)
    ensures |b.scfi| == 2 && BookValid(b.scfi[0]) && |b.scfi[0].enc| == 4 && BookValid(b.scfi[1]) && |b.scfi[1].enc| == 16
    ensures var x, y := 2 * Bit(l.b == l.a) + Bit(l.c == l.b), 2 * Bit(r.b == r.a) + Bit(r.c == r.b);
            x < 4 && y < 4
            && ScfiBits(b, resL, resR, l, r)
               == if resL != 0 && resR != 0 then Word(b.scfi[1], 4 * x + y)
                  else if resL != 0 then Word(b.scfi[0], x)
                  else if resR != 0 then Word(b.scfi[0], y)
                  else []
  {
    hide BookValid;
  }

  /** A difference, or the escape and six more bits. */
  method WriteDelta(e: BitWriter, book: Book, escape: nat, from: int, to: int)
    requires BookValid(book) && 64 <= |book.enc| && escape < |book.enc|
    requires Delta(from, to) < 128 && e.Valid() && e.Free() >= |EscapedBits(book, escape, Delta(from, to))|
    modifies e, e.buffer
    ensures e.Valid() && e.buffer == old(e.buffer)
    ensures e.Contents() == old(e.Contents()) + EscapedBits(book, escape, Delta(from, to))
    ensures e.Free() == old(e.Free()) - |EscapedBits(book, escape, Delta(from, to))|
  {
    hide BookValid, Word, Enc, Pow2, BitWriter.Contents, BitWriter.Valid, BitWriter.Free;
    var tmp := (to - from + 31) % 128;
    if tmp < 64 {
      BookWrite(e, book, tmp);
    } else {
      Assoc(e.Contents(), Word(book, escape), Enc(tmp - 64, 6));
      Pow2Facts();
      BookWrite(e, book, escape);
      e.WriteBits(tmp - 64, 6);
    }
  }

  lemma DscfBooks(b: Books)
    requires BooksValid(b)
    ensures |b.dscf| == 2 && BookValid(b.dscf[0]) && |b.dscf[0].enc| == 64 && BookValid(b.dscf[1]) && |b.dscf[1].enc| == 65
  {}

  lemma TripleIs(b: Books, flag: bool, last: int, s: Scf)
    requires BooksValid(b) && ScfOk(s)
    ensures TripleBits(b, flag, last, s) == FirstBits(b, flag, last, s.a) + (NextBits(b, s.a, s.b) + NextBits(b, s.b, s.c))
    ensures |b.dscf| == 2 && |b.dscf[0].enc| == 64 && |b.dscf[1].enc| == 65
    ensures -6 <= s.a <= 121 && 0 <= s.a + 6 < Pow2(7)
    ensures flag ==> FirstBits(b, flag, last, s.a) == Enc(s.a + 6, 7)
    ensures Delta(last, s.a) < 128 && (!flag ==> FirstBits(b, flag, last, s.a) == EscapedBits(b.dscf[1], 64, Delta(last, s.a)))
  {
    hide BookValid, EscapedBits, Enc;
    Pow2Facts();
  }

  lemma NextIs(b: Books, a: int, c: int)
    requires BooksValid(b)
    ensures |b.dscf| == 2 && |b.dscf[0].enc| == 64 && Delta(a, c) < 128
    ensures NextBits(b, a, c) == if a == c then [] else EscapedBits(b.dscf[0], 31, Delta(a, c))
  {
    hide BookValid, EscapedBits;
  }

  method WriteNext(e: BitWriter, b: Books, a: int, c: int)
    requires BooksValid(b) && e.Valid() && e.Free() >= |NextBits(b, a, c)|
    modifies e, e.buffer
    ensures e.Valid() && e.buffer == old(e.buffer)
    ensures e.Contents() == old(e.Contents()) + NextBits(b, a, c) && e.Free() == old(e.Free()) - |NextBits(b, a, c)|
  {
    hide *;
    NextIs(b, a, c);
    DscfBooks(b);
    if c != a {
      WriteDelta(e, b.dscf[0], 31, a, c);
    } else {
      NoBits(e.Contents());
    }
  }

  /** The three scalefactors of a coded band. */
  method WriteTriple(e: BitWriter, b: Books, flag: bool, last: int, s: Scf)
    requires BooksValid(b) && ScfOk(s) && e.Valid() && e.Free() >= |TripleBits(b, flag, last, s)|
    modifies e, e.buffer
    ensures e.Valid() && e.buffer == old(e.buffer)
    ensures e.Contents() == old(e.Contents()) + TripleBits(b, flag, last, s)
    ensures e.Free() == old(e.Free()) - |TripleBits(b, flag, last, s)|
  {
    hide *;
    TripleIs(b, flag, last, s);
    DscfBooks(b);
    Assoc4(e.Contents(), FirstBits(b, flag, last, s.a), NextBits(b, s.a, s.b), NextBits(b, s.b, s.c));
    if flag {
      e.WriteBits(s.a + 6, 7);
    } else {
      WriteDelta(e, b.dscf[1], 64, last, s.a);
    }
    WriteNext(e, b, s.a, s.b);
    WriteNext(e, b, s.b, s.c);
  }
}
