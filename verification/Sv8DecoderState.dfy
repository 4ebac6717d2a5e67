/** The decoder object: frames are parsed into its arrays, which are also its memory. */
module Sv8DecoderState {
  import opened BitStrings
  import opened BitReading
  import opened Integers
  import opened Codebooks
  import opened Sv8Samples
  import opened Sv8Header
  import opened Sv8Scf
  import opened Sv8Frame
  import opened Sv8Memory
  import opened Sv8Encoding
  import opened Sv8Decoding
  import opened Sv8FrameDecoding

  lemma ChanDecCases(b: Books, res: int, flag: bool, prev: Scf, scfi: nat, s: Bits)
    requires BooksValid(b)
    ensures ChanDec(b, res, flag, prev, scfi, s) == if res != 0 then TripleDec(b, flag, prev.c, scfi, s) else Got(prev, s)
  {}

  lemma AllScfParts(b: Books, l: seq<int>, r: seq<int>, xs: seq<(nat, nat)>, d: DecMem, k: nat, used: nat, s: Bits)
    requires BooksValid(b) && DecMemOk(d) && k < used <= 32 && used <= |l| && used <= |r| && |xs| == used - k
    requires AllScfDec(b, l, r, xs, d, k, used, s).Got?
    ensures |d.l.flag| == |d.l.scf| == |d.r.flag| == |d.r.scf| == 32
    ensures var p := ChanDec(b, l[k], d.l.flag[k], d.l.scf[k], xs[0].0, s);
            && p.Got?
            && var q := ChanDec(b, r[k], d.r.flag[k], d.r.scf[k], xs[0].1, p.rest);
            && q.Got?
            && var next := AllScfDec(b, l, r, xs[1..], d, k + 1, used, q.rest);
            && next.Got? && |next.rest| <= |q.rest| <= |p.rest|
            && AllScfDec(b, l, r, xs, d, k, used, s) == Got(([p.value] + next.value.0, [q.value] + next.value.1), next.rest)
  {
    hide BooksValid, ChanDec;
  }

  lemma AllScfEnd(b: Books, l: seq<int>, r: seq<int>, xs: seq<(nat, nat)>, d: DecMem, used: nat, s: Bits)
    requires BooksValid(b) && DecMemOk(d) && used <= 32 && used <= |l| && used <= |r| && |xs| == 0
    ensures AllScfDec(b, l, r, xs, d, used, used, s) == Got(([], []), s)
  {}

  lemma AllSampleParts(b: Books, l: seq<int>, r: seq<int>, k: nat, used: nat, s: Bits)
    requires BooksValid(b) && SampleBooksValid(b.samples) && k < used && InRange(l, used) && InRange(r, used)
    requires AllSampleDec(b, l, r, k, used, s).Got?
    ensures used <= |l| && used <= |r| && -1 <= l[k] <= 15 && -1 <= r[k] <= 15
    ensures var p := SampleDec(b.samples, l[k], s);
            && p.Got?
            && var q := SampleDec(b.samples, r[k], p.rest);
            && q.Got?
            && var next := AllSampleDec(b, l, r, k + 1, used, q.rest);
            && next.Got? && |next.rest| <= |q.rest| <= |p.rest|
            && AllSampleDec(b, l, r, k, used, s) == Got(([p.value] + next.value.0, [q.value] + next.value.1), next.rest)
  {
    hide BooksValid, SampleDec, SampleBooksValid;
  }

  lemma AllSampleEnd(b: Books, l: seq<int>, r: seq<int>, used: nat, s: Bits)
    requires BooksValid(b) && InRange(l, used) && InRange(r, used)
    ensures AllSampleDec(b, l, r, used, used, s) == Got(([], []), s)
  {}

  /** Two lists read side by side. */
  ghost predicate Reads2<T>(whole: Parsed<(seq<T>, seq<T>)>, a: seq<T>, c: seq<T>, part: Parsed<(seq<T>, seq<T>)>)
  {
    part.Got? && whole == Got((a + part.value.0, c + part.value.1), part.rest)
  }

  lemma Reads2Start<T>(p: Parsed<(seq<T>, seq<T>)>)
    requires p.Got?
    ensures Reads2(p, [], [], p)
  {
    NoHead(p.value.0);
    NoHead(p.value.1);
  }

  lemma Reads2More<T>(whole: Parsed<(seq<T>, seq<T>)>, a: seq<T>, c: seq<T>, part: Parsed<(seq<T>, seq<T>)>, x: T, y: T,
                      next: Parsed<(seq<T>, seq<T>)>)
    requires Reads2(whole, a, c, part) && next.Got? && part == Got(([x] + next.value.0, [y] + next.value.1), next.rest)
    ensures Reads2(whole, a + [x], c + [y], next)
  {
    Assoc(a, [x], next.value.0);
    Assoc(c, [y], next.value.1);
  }

  lemma Reads2Done<T>(whole: Parsed<(seq<T>, seq<T>)>, a: seq<T>, c: seq<T>, part: Parsed<(seq<T>, seq<T>)>, s: Bits)
    requires Reads2(whole, a, c, part) && part == Got(([], []), s)
    ensures whole == Got((a, c), s)
  {
    JoinNone(a);
    JoinNone(c);
  }

  lemma Reads2Rest<T>(whole: Parsed<(seq<T>, seq<T>)>, a: seq<T>, c: seq<T>, part: Parsed<(seq<T>, seq<T>)>)
    requires Reads2(whole, a, c, part)
    ensures whole.Got? && part.Got? && whole.rest == part.rest
  {}

  lemma ClearedNext(res: seq<int>, flag: seq<bool>, n: nat)
    requires n < |res| && n < |flag|
    ensures var g := Cleared(res, flag, 0, n);
            |g| == |flag| && g[n] == flag[n] && Cleared(res, flag, 0, n + 1) == if res[n] != 0 then g[n := false] else g
    ensures Cleared(res, flag, 0, 0) == flag
  {
    hide Cleared;
    var g, g1 := Cleared(res, flag, 0, n), Cleared(res, flag, 0, n + 1);
    forall i | 0 <= i < |flag|
      ensures g[i] == (flag[i] && (i < n ==> res[i] == 0)) && g1[i] == (flag[i] && (i < n + 1 ==> res[i] == 0))
      ensures Cleared(res, flag, 0, 0)[i] == flag[i]
    {
      ClearedAt(res, flag, 0, n, i);
      ClearedAt(res, flag, 0, n + 1, i);
      ClearedAt(res, flag, 0, 0, i);
    }
  }

  lemma ClearedStart(res: seq<int>, flag: seq<bool>)
    ensures Cleared(res, flag, 0, 0) == flag
  {}

  lemma NewQNext(res: seq<int>, xs: seq<seq<int>>, was: seq<seq<int>>, x: seq<int>)
    requires |xs| < |res| && |xs| < |was|
    ensures var n := |xs|; var g := NewQ(res, xs, was, 0, n);
            |g| == |was| && NewQ(res, xs + [x], was, 0, n + 1) == if res[n] >= 1 then g[n := x] else g
  {
    hide NewQ;
    var n := |xs|;
    var g, g1 := NewQ(res, xs, was, 0, n), NewQ(res, xs + [x], was, 0, n + 1);
    forall i | 0 <= i < |was|
      ensures g[i] == (if i < n && res[i] >= 1 then xs[i] else was[i])
      ensures g1[i] == (if i < n + 1 && res[i] >= 1 then (xs + [x])[i] else was[i])
    {
      NewQAt(res, xs, was, 0, n, i);
      NewQAt(res, xs + [x], was, 0, n + 1, i);
    }
  }

  lemma NewQStart(res: seq<int>, was: seq<seq<int>>)
    ensures NewQ(res, [], was, 0, 0) == was
  {}

  lemma OverIs<T>(xs: seq<T>, was: seq<T>, got: seq<T>)
    requires |xs| <= |was| == |got| && got[..|xs|] == xs && got[|xs|..] == was[|xs|..]
    ensures got == Over(xs, was)
  {
    assert got == got[..|xs|] + got[|xs|..];
  }

  lemma Advance<T>(s: seq<T>, was: seq<T>, n: nat, v: T)
    requires n < |s| == |was| && s[n..] == was[n..]
    ensures s[n] == was[n] && s[n + 1..] == was[n + 1..]
    ensures s[n := v][..n + 1] == s[..n] + [v] && s[n := v][n + 1..] == was[n + 1..]
    ensures s[..n + 1] == s[..n] + [s[n]]
  {
    assert s[n..][0] == was[n..][0];
    assert s[n..][1..] == s[n + 1..] && was[n..][1..] == was[n + 1..];
  }

  class FrameDecoder {
    var lastMaxBand: nat
    var resL: seq<int>
    var resR: seq<int>
    var scfL: seq<Scf>
    var scfR: seq<Scf>
    var flagL: seq<bool>
    var flagR: seq<bool>
    var qL: seq<seq<int>>
    var qR: seq<seq<int>>
    var ms: seq<bool>

    ghost function Mem(): DecMem
      reads this
    {
      DecMem(lastMaxBand, DecChan(resL, scfL, flagL, qL), DecChan(resR, scfR, flagR, qR), ms)
    }

    ghost predicate Valid()
      reads this
    {
      DecMemOk(Mem())
    }

    /** One channel of one band. */
    method ReadLeft(rd: BitReader, b: Books, res: int, scfi: nat, n: nat)
      requires SymsOk(b) && BooksValid(b) && n < |scfL| && n < |flagL| && rd.Valid()
      requires var p := ChanDec(b, res, flagL[n], scfL[n], scfi, rd.Remaining()); p.Got? && |p.rest| >= 24
      modifies this`scfL, this`flagL, rd`pos, rd`count
      ensures rd.Valid() && |scfL| == old(|scfL|) && scfL == old(scfL)[n := scfL[n]]
      ensures ChanDec(b, res, old(flagL[n]), old(scfL[n]), scfi, old(rd.Remaining())) == Got(scfL[n], rd.Remaining())
      ensures flagL == if res != 0 then old(flagL)[n := false] else old(flagL)
    {
      hide *;
      ChanDecCases(b, res, flagL[n], scfL[n], scfi, rd.Remaining());
      if res != 0 {
        var x := ReadTriple(rd, b, flagL[n], scfL[n].c, scfi);
        scfL := scfL[n := x];
        flagL := flagL[n := false];
      } else {
        SameAt(scfL, n);
      }
    }

    method ReadRight(rd: BitReader, b: Books, res: int, scfi: nat, n: nat)
      requires SymsOk(b) && BooksValid(b) && n < |scfR| && n < |flagR| && rd.Valid()
      requires var p := ChanDec(b, res, flagR[n], scfR[n], scfi, rd.Remaining()); p.Got? && |p.rest| >= 24
      modifies this`scfR, this`flagR, rd`pos, rd`count
      ensures rd.Valid() && |scfR| == old(|scfR|) && scfR == old(scfR)[n := scfR[n]]
      ensures ChanDec(b, res, old(flagR[n]), old(scfR[n]), scfi, old(rd.Remaining())) == Got(scfR[n], rd.Remaining())
      ensures flagR == if res != 0 then old(flagR)[n := false] else old(flagR)
    {
      hide *;
      ChanDecCases(b, res, flagR[n], scfR[n], scfi, rd.Remaining());
      if res != 0 {
        var x := ReadTriple(rd, b, flagR[n], scfR[n].c, scfi);
        scfR := scfR[n := x];
        flagR := flagR[n := false];
      } else {
        SameAt(scfR, n);
      }
    }

    /** Scalefactors of the used bands, in place. */
    method ReadScfs(rd: BitReader, b: Books, l: seq<int>, t: seq<int>, used: nat, xs: seq<(nat, nat)>, ghost d: DecMem)
      requires SymsOk(b) && BooksValid(b) && DecMemOk(d) && used <= 32 && used == |l| == |t| && |xs| == used && rd.Valid()
      requires |d.l.scf| == |d.l.flag| == |d.r.scf| == |d.r.flag| == 32
      requires scfL == d.l.scf && flagL == d.l.flag && scfR == d.r.scf && flagR == d.r.flag
      requires var p := AllScfDec(b, l, t, xs, d, 0, used, rd.Remaining()); p.Got? && |p.rest| >= 24
      modifies this`scfL, this`scfR, this`flagL, this`flagR, rd`pos, rd`count
      ensures rd.Valid() && |scfL| == |scfR| == 32
      ensures AllScfDec(b, l, t, xs, d, 0, used, old(rd.Remaining())) == Got((scfL[..used], scfR[..used]), rd.Remaining())
      ensures scfL[used..] == d.l.scf[used..] && scfR[used..] == d.r.scf[used..]
      ensures flagL == Cleared(l, d.l.flag, 0, used) && flagR == Cleared(t, d.r.flag, 0, used)
    {
      hide *;
      ghost var whole := AllScfDec(b, l, t, xs, d, 0, used, rd.Remaining());
      Reads2Start(whole);
      TakeZero(scfL);
      TakeZero(scfR);
      FromStart(xs);
      ClearedStart(l, flagL);
      ClearedStart(t, flagR);
      var n := 0;
      while n < used
        invariant 0 <= n <= used && rd.Valid() && |scfL| == |scfR| == 32
        invariant scfL[n..] == d.l.scf[n..] && scfR[n..] == d.r.scf[n..]
        invariant flagL == Cleared(l, d.l.flag, 0, n) && flagR == Cleared(t, d.r.flag, 0, n)
        invariant Reads2(whole, scfL[..n], scfR[..n], AllScfDec(b, l, t, xs[n..], d, n, used, rd.Remaining()))
      {
        ghost var part := AllScfDec(b, l, t, xs[n..], d, n, used, rd.Remaining());
        Reads2Rest(whole, scfL[..n], scfR[..n], part);
        AllScfParts(b, l, t, xs[n..], d, n, used, rd.Remaining());
        DropFirst(xs, n);
        ClearedNext(l, d.l.flag, n);
        ClearedNext(t, d.r.flag, n);
        Advance(scfL, d.l.scf, n, scfL[n]);
        Advance(scfR, d.r.scf, n, scfR[n]);
        ghost var a, c := scfL[..n], scfR[..n];
        ghost var was, was2 := scfL, scfR;
        ReadLeft(rd, b, l[n], xs[n].0, n);
        ReadRight(rd, b, t[n], xs[n].1, n);
        Advance(was, d.l.scf, n, scfL[n]);
        Advance(was2, d.r.scf, n, scfR[n]);
        Reads2More(whole, a, c, part, scfL[n], scfR[n], AllScfDec(b, l, t, xs[n + 1..], d, n + 1, used, rd.Remaining()));
        n := n + 1;
      }
      AllScfEnd(b, l, t, xs[n..], d, used, rd.Remaining());
      Reads2Done(whole, scfL[..n], scfR[..n], AllScfDec(b, l, t, xs[n..], d, used, used, rd.Remaining()), rd.Remaining());
    }

    /** Samples of the used bands, in place. */
    method ReadSamples(rd: BitReader, b: Books, l: seq<int>, t: seq<int>, used: nat)
      returns (ghost a: seq<seq<int>>, ghost c: seq<seq<int>>)
      requires SymsOk(b) && BooksValid(b) && InRange(l, used) && InRange(t, used) && rd.Valid()
      requires used == |l| == |t| && used <= |qL| == |qR| == 32
      requires var p := AllSampleDec(b, l, t, 0, used, rd.Remaining()); p.Got? && |p.rest| >= 24
      modifies this`qL, this`qR, rd`pos, rd`count
      ensures rd.Valid() && |a| == |c| == used
      ensures AllSampleDec(b, l, t, 0, used, old(rd.Remaining())) == Got((a, c), rd.Remaining())
      ensures qL == NewQ(l, a, old(qL), 0, used) && qR == NewQ(t, c, old(qR), 0, used)
    {
      hide *;
      ghost var whole := AllSampleDec(b, l, t, 0, used, rd.Remaining());
      BooksAre(b);
      Reads2Start(whole);
      NewQStart(l, qL);
      NewQStart(t, qR);
      a, c := [], [];
      var n := 0;
      while n < used
        invariant 0 <= n <= used && |a| == |c| == n && rd.Valid() && |qL| == |qR| == 32
        invariant qL == NewQ(l, a, old(qL), 0, n) && qR == NewQ(t, c, old(qR), 0, n)
        invariant Reads2(whole, a, c, AllSampleDec(b, l, t, n, used, rd.Remaining()))
      {
        ghost var part := AllSampleDec(b, l, t, n, used, rd.Remaining());
        Reads2Rest(whole, a, c, part);
        AllSampleParts(b, l, t, n, used, rd.Remaining());
        var x := ReadBand(rd, b, l[n]);
        NewQNext(l, a, old(qL), x);
        if l[n] >= 1 { qL := qL[n := x]; }
        var y := ReadBand(rd, b, t[n]);
        NewQNext(t, c, old(qR), y);
        if t[n] >= 1 { qR := qR[n := y]; }
        Reads2More(whole, a, c, part, x, y, AllSampleDec(b, l, t, n + 1, used, rd.Remaining()));
        a, c := a + [x], c + [y];
        n := n + 1;
      }
      AllSampleEnd(b, l, t, used, rd.Remaining());
      Reads2Done(whole, a, c, AllSampleDec(b, l, t, used, used, rd.Remaining()), rd.Remaining());
    }

    /** Silences the bands above the used ones. */
    method ZeroAbove(used: nat, max: nat, ghost wasL: seq<int>, ghost wasR: seq<int>)
      requires used <= 32 && max < 32 && |resL| == |resR| == |wasL| == |wasR| == 32
      requires resL[used..] == wasL[used..] && resR[used..] == wasR[used..]
      modifies this`resL, this`resR
      ensures resL == NewRes(old(resL)[..used], wasL, max) && resR == NewRes(old(resR)[..used], wasR, max)
    {
      hide *;
      ghost var l, t := resL[..used], resR[..used];
      var n := used;
      ZerosStart(l, wasL, resL);
      ZerosStart(t, wasR, resR);
      while n <= max
        invariant used <= n && (n <= max + 1 || n == used) && |resL| == |resR| == 32
        invariant resL == l + Zeros(n - used) + wasL[n..] && resR == t + Zeros(n - used) + wasR[n..]
        decreases max + 1 - n
      {
        ZerosMore(l, wasL, n);
        ZerosMore(t, wasR, n);
        resL := resL[n := 0];
        resR := resR[n := 0];
        n := n + 1;
      }
      NewResIs(l, wasL, max);
      NewResIs(t, wasR, max);
    }

    /** One frame. */
    method ReadFrame(rd: BitReader, b: Books, msOn: bool, max: nat, key: bool)
      requires Valid() && SymsOk(b) && BooksValid(b) && max < 32 && rd.Valid() && DecMemOk(Mem())
      requires var p := FrameDec(b, msOn, max, key, Mem(), rd.Remaining()); p.Got? && |p.rest| >= 24
      modifies this, rd`pos, rd`count
      ensures Valid() && rd.Valid()
      ensures FrameDec(b, msOn, max, key, old(Mem()), old(rd.Remaining())) == Got(Mem(), rd.Remaining())
    {
      hide *;
      ghost var d := Mem();
      ghost var k := KeyedDec(d, key);
      MemParts2(this);
      KeyedDecIs(d, key);
      FrameDecParts(b, msOn, max, key, d, rd.Remaining());
      var used := ReadBands(rd, b, key, max + 1, lastMaxBand);
      lastMaxBand := used;
      ghost var wasL, wasR := resL, resR;
      resL, resR := ReadResolutions(rd, b, used, resL, resR);
      var l, t := resL[..used], resR[..used];
      ms := ReadMs(rd, msOn, l, t, used, ms);
      ZeroAbove(used, max, wasL, wasR);
      if key {
        flagL, flagR := AllSet(32), AllSet(32);
      }
      ghost var a, c := ReadBody(rd, b, l, t, used, k);
      DecMemIs(this);
      NewChanIs(k.l, l, scfL, a, max);
      NewChanIs(k.r, t, scfR, c, max);
    }

    /** Scalefactor patterns, scalefactors and samples. */
    method ReadBody(rd: BitReader, b: Books, l: seq<int>, t: seq<int>, used: nat, ghost d: DecMem)
      returns (ghost a: seq<seq<int>>, ghost c: seq<seq<int>>)
      requires SymsOk(b) && BooksValid(b) && DecMemOk(d) && used <= 32 && used == |l| == |t| && rd.Valid()
      requires InRange(l, used) && InRange(t, used)
      requires |d.l.scf| == |d.l.flag| == |d.r.scf| == |d.r.flag| == |qL| == |qR| == 32
      requires scfL == d.l.scf && flagL == d.l.flag && scfR == d.r.scf && flagR == d.r.flag
      requires var p := BodyDec(b, l, t, d, used, rd.Remaining()); p.Got? && |p.rest| >= 24
      modifies this`scfL, this`scfR, this`flagL, this`flagR, this`qL, this`qR, rd`pos, rd`count
      ensures rd.Valid() && |scfL| == |scfR| == 32 && |a| == |c| == used
      ensures BodyDec(b, l, t, d, used, old(rd.Remaining())) == Got(Body(scfL[..used], scfR[..used], a, c), rd.Remaining())
      ensures scfL[used..] == d.l.scf[used..] && scfR[used..] == d.r.scf[used..]
      ensures flagL == Cleared(l, d.l.flag, 0, used) && flagR == Cleared(t, d.r.flag, 0, used)
      ensures qL == NewQ(l, a, old(qL), 0, used) && qR == NewQ(t, c, old(qR), 0, used)
    {
      hide *;
      BodyDecParts(b, l, t, d, used, rd.Remaining());
      var xs := ReadScfis(rd, b, l, t, used);
      ReadScfs(rd, b, l, t, used, xs, d);
      a, c := ReadSamples(rd, b, l, t, used);
    }
  }

  lemma SameAt<T>(s: seq<T>, n: nat)
    requires n < |s|
    ensures s[n := s[n]] == s
  {}

  lemma TakeZero<T>(s: seq<T>)
    ensures s[..0] == [] && s[0..] == s
  {}

  lemma DropFirst<T>(s: seq<T>, n: nat)
    requires n < |s|
    ensures |s[n..]| == |s| - n && s[n..][0] == s[n] && s[n..][1..] == s[n + 1..]
  {}

  lemma ZerosStart(l: seq<int>, was: seq<int>, res: seq<int>)
    requires |l| <= |was| == |res| && res[..|l|] == l && res[|l|..] == was[|l|..]
    ensures res == l + Zeros(0) + was[|l|..]
  {
    assert res == res[..|l|] + res[|l|..];
  }

  lemma {:induction false} ZerosSnoc(n: nat)
    ensures Zeros(n + 1) == Zeros(n) + [0]
  {
    if n > 0 {
      ZerosSnoc(n - 1);
      Assoc([0], Zeros(n - 1), [0]);
    }
  }

  lemma ZerosMore(l: seq<int>, was: seq<int>, n: nat)
    requires |l| <= n < |was|
    ensures |l + Zeros(n - |l|) + was[n..]| == |was|
    ensures (l + Zeros(n - |l|) + was[n..])[n := 0] == l + Zeros(n + 1 - |l|) + was[n + 1..]
  {
    hide Zeros;
    ZerosSnoc(n - |l|);
    var h := l + Zeros(n - |l|);
    Assoc(l, Zeros(n - |l|), [0]);
    assert was[n..] == [was[n]] + was[n + 1..];
    assert (h + was[n..])[n := 0] == h + [0] + was[n + 1..];
  }

  lemma NewResIs(l: seq<int>, was: seq<int>, max: nat)
    requires |l| <= |was| && max < |was|
    ensures |l| <= max ==> NewRes(l, was, max) == l + Zeros(max + 1 - |l|) + was[max + 1..]
    ensures |l| > max ==> NewRes(l, was, max) == l + Zeros(0) + was[|l|..]
  {
    NoBits2(l);
  }

  lemma NoBits2(l: seq<int>)
    ensures l + [] == l
  {}

  lemma MemParts2(x: FrameDecoder)
    requires x.Valid()
    ensures DecMemOk(x.Mem()) && x.lastMaxBand == x.Mem().lastMaxBand <= 32 && x.ms == x.Mem().ms
    ensures x.resL == x.Mem().l.res && x.scfL == x.Mem().l.scf && x.flagL == x.Mem().l.flag && x.qL == x.Mem().l.q
    ensures x.resR == x.Mem().r.res && x.scfR == x.Mem().r.scf && x.flagR == x.Mem().r.flag && x.qR == x.Mem().r.q
    ensures |x.resL| == |x.scfL| == |x.flagL| == |x.qL| == |x.resR| == |x.scfR| == |x.flagR| == |x.qR| == |x.ms| == 32
  {}

  lemma DecMemIs(x: FrameDecoder)
    requires |x.resL| == |x.scfL| == |x.flagL| == |x.qL| == |x.resR| == |x.scfR| == |x.flagR| == |x.qR| == |x.ms| == 32
    requires x.lastMaxBand <= 32
    ensures x.Valid()
    ensures x.Mem() == DecMem(x.lastMaxBand, DecChan(x.resL, x.scfL, x.flagL, x.qL), DecChan(x.resR, x.scfR, x.flagR, x.qR), x.ms)
  {}

  lemma KeyedDecIs(d: DecMem, key: bool)
    requires DecMemOk(d)
    ensures var k := KeyedDec(d, key);
            && DecMemOk(k) && DecChanOk(k.l) && DecChanOk(k.r)
            && |k.l.res| == |k.l.scf| == |k.l.flag| == |k.l.q| == |k.r.res| == |k.r.scf| == |k.r.flag| == |k.r.q| == 32
            && k.l.res == d.l.res && k.l.scf == d.l.scf && k.l.q == d.l.q && k.r.res == d.r.res && k.r.scf == d.r.scf
            && k.r.q == d.r.q && k.l.flag == (if key then AllSet(32) else d.l.flag) && k.r.flag == (if key then AllSet(32) else d.r.flag)
  {
    hide AllSet;
  }

  lemma NewChanIs(c: DecChan, res: seq<int>, scf: seq<Scf>, q: seq<seq<int>>, max: nat)
    requires DecChanOk(c) && |c.res| == |c.scf| == |c.flag| == |c.q| == 32 && |res| == |q| <= 32 && |scf| == 32 && max < 32
    requires scf[|res|..] == c.scf[|res|..]
    ensures NewChan(c, res, scf[..|res|], q, max)
         == DecChan(NewRes(res, c.res, max), scf, Cleared(res, c.flag, 0, |res|), NewQ(res, q, c.q, 0, |res|))
  {
    hide NewRes, Cleared, NewQ;
    OverIs(scf[..|res|], c.scf, scf);
  }

  lemma BodyDecParts(b: Books, l: seq<int>, r: seq<int>, d: DecMem, used: nat, s: Bits)
    requires BooksValid(b) && DecMemOk(d) && used <= 32 && InRange(l, used) && InRange(r, used) && BodyDec(b, l, r, d, used, s).Got?
    ensures used <= |l| && used <= |r|
    ensures var x := AllScfiDec(b, l, r, 0, used, s);
            && x.Got? && |x.value| == used
            && var y := AllScfDec(b, l, r, x.value, d, 0, used, x.rest);
            && y.Got?
            && var z := AllSampleDec(b, l, r, 0, used, y.rest);
            && z.Got? && |z.rest| <= |y.rest| <= |x.rest|
            && BodyDec(b, l, r, d, used, s) == Got(Body(y.value.0, y.value.1, z.value.0, z.value.1), z.rest)
  {
    hide BooksValid, DecMemOk, AllScfiDec, AllScfDec, AllSampleDec;
  }

  lemma FrameDecParts(b: Books, msOn: bool, max: nat, key: bool, d: DecMem, s: Bits)
    requires BooksValid(b) && max < 32 && DecMemOk(d) && FrameDec(b, msOn, max, key, d, s).Got?
    ensures d.lastMaxBand <= 32 && |d.ms| == 32 && DecMemOk(KeyedDec(d, key))
    ensures var k := KeyedDec(d, key);
            var p := BandsDec(b, key, max + 1, d.lastMaxBand, s);
            && p.Got? && p.value <= 32
            && var q := ResDec(b, p.rest, p.value);
            && q.Got? && |q.value.0| == |q.value.1| == p.value && InRange(q.value.0, p.value) && InRange(q.value.1, p.value)
            && var m := MsPartDec(msOn, q.value.0, q.value.1, p.value, d.ms, q.rest);
            && m.Got?
            && var t := BodyDec(b, q.value.0, q.value.1, k, p.value, m.rest);
            && t.Got? && |t.rest| <= |m.rest| <= |q.rest| <= |p.rest|
            && |t.value.scfL| == |t.value.scfR| == |t.value.qL| == |t.value.qR| == p.value
            && DecChanOk(k.l) && DecChanOk(k.r)
            && FrameDec(b, msOn, max, key, d, s)
               == Got(DecMem(p.value, NewChan(k.l, q.value.0, t.value.scfL, t.value.qL, max),
                             NewChan(k.r, q.value.1, t.value.scfR, t.value.qR, max), m.value), t.rest)
  {
    hide BooksValid, BandsDec, ResDec, MsPartDec, BodyDec, NewChan, KeyedDec;
  }
}
