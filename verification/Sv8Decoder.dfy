/** The frame parser, step by step: each loop reads what its specification reads, and stops where it stops. */
module Sv8Decoding {
  import opened BitStrings
  import opened BitWriting
  import opened BitReading
  import opened Integers
  import opened Enumerative
  import opened Codebooks
  import opened Sv8Samples
  import opened Sv8Header
  import opened Sv8Scf
  import opened Sv8Frame
  import opened Sv8Memory
  import opened Sv8Encoding

  // ----- symbols -----

  /** A decoder symbol that is the encoder's index itself. */
  ghost predicate Plain(book: Book) { forall i :: 0 <= i < |book.syms| ==> book.syms[i] == i }

  /** The two halves of a byte, as signed numbers. */
  function LowNibble(sym: int): int { (sym + 8) % 16 - 8 }
  function HighNibble(sym: int): int { sym / 16 }

  /** They are signed, and the byte is made of them. */
  lemma NibblesAre(sym: int)
    requires -128 <= sym < 128
    ensures -8 <= LowNibble(sym) < 8 && -8 <= HighNibble(sym) < 8
    ensures (sym - LowNibble(sym)) % 16 == 0 && HighNibble(sym) * 16 <= sym < HighNibble(sym) * 16 + 16
  {}

  /** A symbol that packs two samples. */
  ghost predicate Packed(book: Book, m: nat, half: nat)
    requires m >= 1
  {
    forall i :: 0 <= i < |book.syms| ==>
      LowNibble(book.syms[i]) == i % m - half && HighNibble(book.syms[i]) == i / m - half
  }

  /** A symbol that is the sample. */
  ghost predicate Centred(book: Book, half: nat) { forall i :: 0 <= i < |book.syms| ==> book.syms[i] == i - half }

  /** A symbol that is the index as a signed byte. */
  ghost predicate SignedByte(book: Book) { forall i :: 0 <= i < |book.syms| ==> book.syms[i] % 256 == i }

  /** How the decoder's symbols relate to the encoder's indices. */
  ghost predicate SymsOk(b: Books)
  {
    && BooksValid(b)
    && Plain(b.bands) && Plain(b.res[0]) && Plain(b.res[1]) && Plain(b.scfi[0]) && Plain(b.scfi[1])
    && Plain(b.dscf[0]) && Plain(b.dscf[1]) && Plain(b.samples.q1) && Plain(b.samples.q2[0]) && Plain(b.samples.q2[1])
    && Packed(b.samples.q3, 7, 3) && Packed(b.samples.q4, 9, 4)
    && Centred(b.samples.q5[0], 7) && Centred(b.samples.q5[1], 7)
    && Centred(b.samples.q6[0], 15) && Centred(b.samples.q6[1], 15)
    && Centred(b.samples.q7[0], 31) && Centred(b.samples.q7[1], 31)
    && Centred(b.samples.q8[0], 63) && Centred(b.samples.q8[1], 63)
    && SignedByte(b.samples.q9up)
  }

  /** With three bytes left, the reader may look ahead. */
  lemma Slack(r: BitReader)
    requires r.Valid() && |r.Remaining()| >= 24
    ensures r.pos + 2 < |r.data|
  {
    hide BytesToBits;
  }

  method ReadPlain(r: BitReader, book: Book) returns (i: nat)
    requires BookValid(book) && Plain(book) && r.Valid() && |r.Remaining()| >= 24
    modifies r`pos, r`count
    ensures r.Valid() && i < |book.enc| && BookDec(book, old(r.Remaining())) == Got(i, r.Remaining())
  {
    hide BookDec, CanValid, BitReader.Valid, BitReader.Remaining, Word;
    Slack(r);
    var v; ghost var g;
    v, g := BookRead(r, book);
    i := v;
  }

  lemma TakeIs(s: Bits, n: nat)
    ensures Take(s, n).Got? <==> n <= |s|
    ensures n <= |s| ==> Take(s, n) == Got(Val(s[..n]), s[n..])
  {}

  method ReadField(r: BitReader, n: nat) returns (v: nat)
    requires r.Valid() && n <= 31 && Take(r.Remaining(), n).Got?
    modifies r`pos, r`count
    ensures r.Valid() && Take(old(r.Remaining()), n) == Got(v, r.Remaining())
  {
    hide *;
    TakeIs(r.Remaining(), n);
    v := r.Read(n);
  }

  // ----- masks -----

  lemma RegBound(n: nat)
    requires n <= 32
    ensures Pow2(n) <= 0x1_0000_0000
  {
    hide Pow2;
    Pow2Facts();
    Pow2Mono(n, 32);
  }

  lemma MaskDecParts(s: Bits, cnt: nat, tot: nat)
    requires cnt <= tot <= 32 && MaskDec(s, cnt, tot).Got?
    ensures cnt == 0 || cnt == tot ==>
              MaskDec(s, cnt, tot) == Got(if 2 * cnt > tot then Not(Enc(0, tot)) else Enc(0, tot), s)
    ensures 0 < cnt < tot ==>
              var k := if cnt <= tot - cnt then cnt else tot - cnt;
              1 <= k <= 16 && k < tot && EnumDec(s, k, tot).Got?
              && MaskDec(s, cnt, tot)
                 == Got(if 2 * cnt > tot then Not(EnumDec(s, k, tot).value) else EnumDec(s, k, tot).value, EnumDec(s, k, tot).rest)
  {
    hide Enc, Not, EnumDec;
  }

  /** A mask with a known number of ones, in a register. */
  method ReadMask(r: BitReader, cnt: nat, tot: nat) returns (reg: nat)
    requires r.Valid() && cnt <= tot <= 32 && MaskDec(r.Remaining(), cnt, tot).Got?
    modifies r`pos, r`count
    ensures r.Valid() && reg < 0x1_0000_0000 && MaskDec(old(r.Remaining()), cnt, tot) == Got(Enc(reg, tot), r.Remaining())
  {
    hide *;
    MaskDecParts(r.Remaining(), cnt, tot);
    reg := 0;
    RegBound(tot);
    if cnt != 0 && cnt != tot {
      reg := EnumDecode(r, if cnt <= tot - cnt then cnt else tot - cnt, tot);
    }
    Complement32(reg, tot);
    if cnt * 2 > tot { reg := 0xFFFF_FFFF - reg; }
  }

  // ----- samples -----

  lemma HalfDecParts(q1: Book, s: Bits)
    requires |q1.enc| == 19 && HalfDec(q1, s).Got?
    ensures var p1 := BookDec(q1, s);
            && p1.Got? && p1.value < 19
            && var p2 := MaskDec(p1.rest, p1.value, 18);
            && p2.Got? && |p2.value| == 18 && HalfDec(q1, s) == SignsDec(p2.rest, p2.value)
  {
    hide BookDec, MaskDec, SignsDec;
  }

  lemma SignsDecParts(s: Bits, mask: Bits)
    requires mask != [] && SignsDec(s, mask).Got?
    ensures mask[0] ==>
              && Take(s, 1).Got?
              && var p := SignsDec(Take(s, 1).rest, mask[1..]);
              && p.Got? && SignsDec(s, mask) == Got([2 * Take(s, 1).value - 1] + p.value, p.rest)
    ensures !mask[0] ==>
              var p := SignsDec(s, mask[1..]);
              p.Got? && SignsDec(s, mask) == Got([0] + p.value, p.rest)
  {
    hide Take;
  }

  lemma SignsDecDone(s: Bits, mask: Bits)
    requires |mask| == 0
    ensures SignsDec(s, mask) == Got([], s)
  {}

  /** The top of the mask is bit 17 of the register, which then moves up. */
  lemma TopBit(reg: nat, n: nat)
    requires 0 < n <= 18 && reg < 0x1_0000_0000
    ensures Enc(reg, n)[0] == (Shr(reg, n - 1) % 2 == 1) && Enc(reg, n)[1..] == Enc(reg, n - 1)
  {
    EncSplit(reg, 1, n - 1);
    var h := Shr(reg, n - 1);
    assert Enc(h, 1) == Enc(h / 2, 0) + [h % 2 == 1];
  }

  lemma ShlFirst(reg: nat, k: nat)
    requires k > 0
    ensures Shl(reg, k) == 2 * Shl(reg, k - 1)
  {}

  lemma {:induction false} ShrShl1(v: nat, n: nat)
    requires n > 0
    ensures Shr(2 * v, n) == Shr(v, n - 1)
  {
    assert 2 * v / 2 == v;
  }

  lemma {:induction false} ShrShlCancel(v: nat, k: nat, n: nat)
    ensures Shr(Shl(v, k), k + n) == Shr(v, n)
  {
    if k > 0 {
      ShlFirst(v, k);
      ShrShl1(Shl(v, k - 1), k + n);
      ShrShlCancel(v, k - 1, n);
    }
  }

  /** Adding an already read part in front of what is still to be read. */
  ghost predicate Reads<T>(whole: Parsed<seq<T>>, done: seq<T>, part: Parsed<seq<T>>)
  {
    part.Got? && whole == Got(done + part.value, part.rest)
  }

  lemma ReadsStart<T>(p: Parsed<seq<T>>)
    requires p.Got?
    ensures Reads(p, [], p)
  {
    assert [] + p.value == p.value;
  }

  lemma ReadsMore<T>(whole: Parsed<seq<T>>, done: seq<T>, part: Parsed<seq<T>>, x: seq<T>, next: Parsed<seq<T>>)
    requires Reads(whole, done, part) && next.Got? && part == Got(x + next.value, next.rest)
    ensures Reads(whole, done + x, next)
  {
    Assoc(done, x, next.value);
  }

  lemma ReadsDone<T>(whole: Parsed<seq<T>>, done: seq<T>, part: Parsed<seq<T>>, s: Bits)
    requires Reads(whole, done, part) && part == Got([], s)
    ensures whole == Got(done, s)
  {
    assert done + [] == done;
  }

  lemma ReadsRest<T>(whole: Parsed<seq<T>>, done: seq<T>, part: Parsed<seq<T>>)
    requires Reads(whole, done, part)
    ensures whole.Got? && part.Got? && whole.rest == part.rest && part.value == part.value
  {}

  /** 18 samples at resolution 1: bit 17 of the register says which are not zero, a plain bit gives the sign. */
  method ReadHalf(r: BitReader, q1: Book) returns (q: seq<int>)
    requires BookValid(q1) && |q1.enc| == 19 && Plain(q1)
    requires r.Valid() && HalfDec(q1, r.Remaining()).Got? && |HalfDec(q1, r.Remaining()).rest| >= 24
    modifies r`pos, r`count
    ensures r.Valid() && HalfDec(q1, old(r.Remaining())) == Got(q, r.Remaining()) && |q| == 18
  {
    hide *;
    ghost var whole := HalfDec(q1, r.Remaining());
    HalfDecParts(q1, r.Remaining());
    var cnt := ReadPlain(r, q1);
    var idx := ReadMask(r, cnt, 18);
    ghost var reg := idx;
    var k: nat := 0;
    q := [];
    ShlNone(reg);
    ReadsStart(whole);
    while k < 18
      invariant 0 <= k <= 18 && |q| == k && r.Valid() && reg < 0x1_0000_0000
      invariant idx == Shl(reg, k)
      invariant Reads(whole, q, SignsDec(r.Remaining(), Enc(reg, 18 - k)))
    {
      ghost var mask, part := Enc(reg, 18 - k), SignsDec(r.Remaining(), Enc(reg, 18 - k));
      ReadsRest(whole, q, part);
      EmptySeq(mask);
      SignsDecParts(r.Remaining(), mask);
      TopBit(reg, 18 - k);
      ShrShlCancel(reg, k, 17 - k);
      var v: int := 0;
      if Shr(idx, 17) % 2 == 1 {
        var bit := ReadField(r, 1);
        v := 2 * bit as int - 1;
      }
      ReadsMore(whole, q, part, [v], SignsDec(r.Remaining(), mask[1..]));
      q := q + [v];
      ShlFirst(reg, k + 1);
      idx := 2 * idx;
      k := k + 1;
    }
    SignsDecDone(r.Remaining(), Enc(reg, 0));
    ReadsDone(whole, q, SignsDec(r.Remaining(), Enc(reg, 0)), r.Remaining());
  }

  lemma ShlNone(v: nat)
    ensures Shl(v, 0) == v
  {}

  lemma GroupsDecParts(b: SampleBooks, res: int, s: Bits, k: nat, idx: nat)
    requires SampleBooksValid(b) && 2 <= res <= 8 && k > 0 && GroupsDec(b, res, s, k, idx).Got?
    ensures var p := BookDec(DecBook(b, res, idx), s);
            && p.Got?
            && var next := GroupsDec(b, res, p.rest, k - 1, DecCtx(res, idx, p.value));
            && next.Got? && GroupsDec(b, res, s, k, idx) == Got(GroupOf(res, p.value) + next.value, next.rest)
  {
    hide BookDec, DecBook, GroupOf, DecCtx, SampleBooksValid;
  }

  lemma GroupsDecDone(b: SampleBooks, res: int, s: Bits, idx: nat)
    requires SampleBooksValid(b) && 2 <= res <= 8
    ensures GroupsDec(b, res, s, 0, idx) == Got([], s)
  {}

  /** What the decoder makes of a symbol: three table look-ups, two nibbles, or the symbol itself. */
  function Unpack(res: int, sym: int): (q: seq<int>)
    requires 2 <= res <= 8
    ensures |q| == Group(res)
  {
    if res == 2 then [sym % 5 - 2, sym / 5 % 5 - 2, sym / 25 - 2]
    else if res <= 4 then [LowNibble(sym), HighNibble(sym)]
    else [sym]
  }

  /** The context the decoder keeps, from the samples it has just read. */
  function Ctx(res: int, idx: nat, sym: int): nat
    requires 2 <= res <= 8
  {
    if res == 2 then idx / 2 + HuffQ2Var(sym) else if res <= 4 then idx else idx / 2 + Abs(sym)
  }

  lemma SymGroup(b: Books, res: int, idx: nat, i: nat)
    requires SymsOk(b) && SampleBooksValid(b.samples) && 2 <= res <= 8 && i < |DecBook(b.samples, res, idx).syms|
    ensures var sym := DecBook(b.samples, res, idx).syms[i];
            Unpack(res, sym) == GroupOf(res, i) && Ctx(res, idx, sym) == DecCtx(res, idx, i)
  {
    hide BookValid, LowNibble, HighNibble;
  }

  lemma DecBookIs(b: Books, res: int, idx: nat)
    requires SymsOk(b) && 2 <= res <= 8
    ensures SampleBooksValid(b.samples) && BookValid(DecBook(b.samples, res, idx))
    ensures |DecBook(b.samples, res, idx).enc| == |DecBook(b.samples, res, idx).syms|
  {
    SidesAgree(b.samples, res, idx, 0);
    EncBookValid(b.samples, res, idx);
    hide DecBook, Words;
  }

  /** Resolutions 2 to 8: `left` groups of samples. */
  method ReadGroups(r: BitReader, b: Books, res: int, groups: nat) returns (q: seq<int>)
    requires SymsOk(b) && SampleBooksValid(b.samples) && 2 <= res <= 8 && r.Valid()
    requires var p := GroupsDec(b.samples, res, r.Remaining(), groups, DecFirst(res)); p.Got? && |p.rest| >= 24
    modifies r`pos, r`count
    ensures r.Valid() && GroupsDec(b.samples, res, old(r.Remaining()), groups, DecFirst(res)) == Got(q, r.Remaining())
  {
    hide *;
    var idx: nat, left: nat := DecFirst(res), groups;
    ghost var whole := GroupsDec(b.samples, res, r.Remaining(), left, idx);
    q := [];
    ReadsStart(whole);
    while left > 0
      invariant r.Valid() && 0 <= left <= groups
      invariant Reads(whole, q, GroupsDec(b.samples, res, r.Remaining(), left, idx))
    {
      ghost var s, part := r.Remaining(), GroupsDec(b.samples, res, r.Remaining(), left, idx);
      ReadsRest(whole, q, part);
      GroupsDecParts(b.samples, res, s, left, idx);
      DecBookIs(b, res, idx);
      Slack(r);
      var sym; ghost var i;
      sym, i := BookRead(r, DecBook(b.samples, res, idx));
      SymGroup(b, res, idx, i);
      ReadsMore(whole, q, part, GroupOf(res, i),
                GroupsDec(b.samples, res, r.Remaining(), left - 1, DecCtx(res, idx, i)));
      q := q + Unpack(res, sym);
      idx := Ctx(res, idx, sym);
      left := left - 1;
    }
    GroupsDecDone(b.samples, res, r.Remaining(), idx);
    ReadsDone(whole, q, GroupsDec(b.samples, res, r.Remaining(), 0, idx), r.Remaining());
  }

  lemma PlainDecParts(q9up: Book, res: int, s: Bits, k: nat)
    requires 9 <= res <= 15 && k > 0 && PlainDec(q9up, res, s, k).Got?
    ensures var p := BookDec(q9up, s);
            && p.Got?
            && var t := Take(p.rest, res - 9);
            && t.Got?
            && var next := PlainDec(q9up, res, t.rest, k - 1);
            && next.Got?
            && PlainDec(q9up, res, s, k) == Got([t.value + Shl(p.value, res - 9) - Dc(res)] + next.value, next.rest)
  {
    hide BookDec, Take, Shl, Dc;
  }

  lemma PlainDecDone(q9up: Book, res: int, s: Bits)
    requires 9 <= res <= 15
    ensures PlainDec(q9up, res, s, 0) == Got([], s)
  {}

  lemma HighIs(b: Books, i: nat)
    requires SymsOk(b) && i < |b.samples.q9up.syms|
    ensures b.samples.q9up.syms[i] % 256 == i
  {
    hide BooksValid, BookValid;
  }

  lemma TakeNone(s: Bits)
    ensures Take(s, 0) == Got(0, s)
  {
    assert s[..0] == [] && s[0..] == s;
  }

  method ReadWide(r: BitReader, b: Books, res: int, n: nat) returns (q: seq<int>)
    requires SymsOk(b) && BookValid(b.samples.q9up) && 9 <= res <= 15 && r.Valid()
    requires var p := PlainDec(b.samples.q9up, res, r.Remaining(), n); p.Got? && |p.rest| >= 24
    modifies r`pos, r`count
    ensures r.Valid() && PlainDec(b.samples.q9up, res, old(r.Remaining()), n) == Got(q, r.Remaining())
  {
    hide *;
    var book, left: nat := b.samples.q9up, n;
    ghost var whole := PlainDec(book, res, r.Remaining(), left);
    q := [];
    ReadsStart(whole);
    while left > 0
      invariant r.Valid() && 0 <= left <= n
      invariant Reads(whole, q, PlainDec(book, res, r.Remaining(), left))
    {
      ghost var part := PlainDec(book, res, r.Remaining(), left);
      ReadsRest(whole, q, part);
      PlainDecParts(book, res, r.Remaining(), left);
      Slack(r);
      var sym; ghost var i;
      sym, i := BookRead(r, book);
      HighIs(b, i);
      TakeNone(r.Remaining());
      var v := Shl(sym % 256, res - 9);
      if res != 9 {
        var low := ReadField(r, res - 9);
        v := low + v;
      }
      ReadsMore(whole, q, part, [v - Dc(res)], PlainDec(book, res, r.Remaining(), left - 1));
      q := q + [v - Dc(res)];
      left := left - 1;
    }
    PlainDecDone(book, res, r.Remaining());
    ReadsDone(whole, q, PlainDec(book, res, r.Remaining(), 0), r.Remaining());
  }
}
