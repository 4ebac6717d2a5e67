/** A whole frame: what the encoder writes, what the decoder makes of it, and the memories both keep. */
module Sv8Frame {
  import opened BitStrings
  import opened Integers
  import opened Codebooks
  import opened Sv8Samples
  import opened Sv8Header
  import opened Sv8Scf

  /** One channel of a frame as the encoder holds it. */
  datatype Channel = Channel(res: seq<int>, scf: seq<Scf>, q: seq<seq<int>>)

  datatype Frame = Frame(l: Channel, r: Channel, ms: seq<bool>)

  ghost predicate ChannelOk(c: Channel)
  {
    && ResOk(c.res) && |c.scf| == |c.q| == 32
    && forall n :: 0 <= n < 32 ==> (c.res[n] != 0 ==> ScfOk(c.scf[n])) && BandOk(c.res[n], c.q[n])
  }

  ghost predicate FrameOk(f: Frame)
  {
    ChannelOk(f.l) && ChannelOk(f.r) && |f.ms| == 32
  }

  /** The encoder's memory: last band count, and for each band and channel the last scalefactor sent and
      whether the next one must be sent plain. */
  datatype EncChan = EncChan(last: seq<int>, flag: seq<bool>)
  datatype EncMem = EncMem(maxBand: nat, l: EncChan, r: EncChan)

  ghost predicate EncMemOk(m: EncMem)
  {
    && m.maxBand <= 32 && |m.l.last| == |m.l.flag| == 32 && |m.r.last| == |m.r.flag| == 32
  }

  /** The decoder's memory, which is also where a decoded frame is left. */
  datatype DecChan = DecChan(res: seq<int>, scf: seq<Scf>, flag: seq<bool>, q: seq<seq<int>>)
  datatype DecMem = DecMem(lastMaxBand: nat, l: DecChan, r: DecChan, ms: seq<bool>)

  ghost predicate DecChanOk(c: DecChan)
  {
    |c.res| == |c.scf| == |c.flag| == |c.q| == 32
  }

  ghost predicate DecMemOk(d: DecMem)
  {
    d.lastMaxBand <= 32 && DecChanOk(d.l) && DecChanOk(d.r) && |d.ms| == 32
  }

  // ----- the loops over bands -----

  function AllScfiBits(b: Books, f: Frame, k: nat, used: nat): Bits
    requires BooksValid(b) && FrameOk(f) && k <= used <= 32
    decreases used - k
  {
    if k == used then []
    else ScfiBits(b, f.l.res[k], f.r.res[k], f.l.scf[k], f.r.scf[k]) + AllScfiBits(b, f, k + 1, used)
  }

  ghost function AllScfiDec(b: Books, l: seq<int>, r: seq<int>, k: nat, used: nat, s: Bits): (p: Parsed<seq<(nat, nat)>>)
    requires BooksValid(b) && k <= used <= |l| && used <= |r|
    ensures p.Got? ==> |p.value| == used - k
    ensures p.Got? ==> |p.rest| <= |s|
    decreases used - k
  {
    if k == used then Got([], s)
    else
      var (x, s1) :- ScfiDec(b, l[k], r[k], s);
      var (xs, s2) :- AllScfiDec(b, l, r, k + 1, used, s1);
      Got([x] + xs, s2)
  }

  /** What the decoder should find for bands `k` on. */
  function AllScfi(f: Frame, k: nat, used: nat): (xs: seq<(nat, nat)>)
    requires |f.l.res| == |f.r.res| == |f.l.scf| == |f.r.scf| == 32 && k <= used <= 32
    ensures |xs| == used - k
    decreases used - k
  {
    if k == used then []
    else [(if f.l.res[k] != 0 then Scfi(f.l.scf[k]) else 0, if f.r.res[k] != 0 then Scfi(f.r.scf[k]) else 0)]
         + AllScfi(f, k + 1, used)
  }

  function AllScfBits(b: Books, f: Frame, m: EncMem, k: nat, used: nat): Bits
    requires BooksValid(b) && FrameOk(f) && EncMemOk(m) && k <= used <= 32
    decreases used - k
  {
    if k == used then []
    else
      ChanBits(b, f.l.res[k], m.l.flag[k], m.l.last[k], f.l.scf[k])
      + (ChanBits(b, f.r.res[k], m.r.flag[k], m.r.last[k], f.r.scf[k]) + AllScfBits(b, f, m, k + 1, used))
  }

  ghost function AllScfDec(b: Books, l: seq<int>, r: seq<int>, xs: seq<(nat, nat)>, d: DecMem, k: nat, used: nat, s: Bits)
    : (p: Parsed<(seq<Scf>, seq<Scf>)>)
    requires BooksValid(b) && DecMemOk(d) && k <= used <= 32 && used <= |l| && used <= |r| && |xs| == used - k
    ensures p.Got? ==> |p.value.0| == |p.value.1| == used - k
    ensures p.Got? ==> |p.rest| <= |s|
    decreases used - k
  {
    if k == used then Got(([], []), s)
    else
      var (x, s1) :- ChanDec(b, l[k], d.l.flag[k], d.l.scf[k], xs[0].0, s);
      var (y, s2) :- ChanDec(b, r[k], d.r.flag[k], d.r.scf[k], xs[0].1, s1);
      var (more, s3) :- AllScfDec(b, l, r, xs[1..], d, k + 1, used, s2);
      Got(([x] + more.0, [y] + more.1), s3)
  }

  /** Scalefactors of bands `k` on: the frame's where coded, the old ones elsewhere. */
  function KeptScf(c: Channel, was: seq<Scf>, k: nat, used: nat): (xs: seq<Scf>)
    requires |c.res| == |c.scf| == |was| == 32 && k <= used <= 32
    ensures |xs| == used - k
    decreases used - k
  {
    if k == used then [] else [if c.res[k] != 0 then c.scf[k] else was[k]] + KeptScf(c, was, k + 1, used)
  }

  lemma {:induction false} KeptScfAt(c: Channel, was: seq<Scf>, k: nat, used: nat, n: nat)
    requires |c.res| == |c.scf| == |was| == 32 && k <= n < used <= 32
    ensures KeptScf(c, was, k, used)[n - k] == if c.res[n] != 0 then c.scf[n] else was[n]
    decreases used - k
  {
    if k < n { KeptScfAt(c, was, k + 1, used, n); }
  }

  function AllSampleBits(b: Books, f: Frame, k: nat, used: nat): Bits
    requires BooksValid(b) && FrameOk(f) && k <= used <= 32
    decreases used - k
  {
    if k == used then []
    else
      SampleBits(b.samples, f.l.res[k], f.l.q[k])
      + (SampleBits(b.samples, f.r.res[k], f.r.q[k]) + AllSampleBits(b, f, k + 1, used))
  }

  ghost predicate InRange(res: seq<int>, used: nat)
  {
    used <= |res| && forall n :: 0 <= n < used ==> -1 <= res[n] <= 15
  }

  ghost function AllSampleDec(b: Books, l: seq<int>, r: seq<int>, k: nat, used: nat, s: Bits)
    : (p: Parsed<(seq<seq<int>>, seq<seq<int>>)>)
    requires BooksValid(b) && k <= used && InRange(l, used) && InRange(r, used)
    ensures p.Got? ==> |p.value.0| == |p.value.1| == used - k
    ensures p.Got? ==> |p.rest| <= |s|
    decreases used - k
  {
    if k == used then Got(([], []), s)
    else
      var (x, s1) :- SampleDec(b.samples, l[k], s);
      var (y, s2) :- SampleDec(b.samples, r[k], s1);
      var (more, s3) :- AllSampleDec(b, l, r, k + 1, used, s2);
      Got(([x] + more.0, [y] + more.1), s3)
  }

  function AllRecovered(c: Channel, k: nat, used: nat): (xs: seq<seq<int>>)
    requires ResOk(c.res) && |c.q| == 32 && k <= used <= 32
    ensures |xs| == used - k
    decreases used - k
  {
    if k == used then [] else [Recovered(c.res[k], c.q[k])] + AllRecovered(c, k + 1, used)
  }

  lemma {:induction false} AllRecoveredAt(c: Channel, k: nat, used: nat, n: nat)
    requires ResOk(c.res) && |c.q| == 32 && k <= n < used <= 32
    ensures AllRecovered(c, k, used)[n - k] == Recovered(c.res[n], c.q[n])
    decreases used - k
  {
    if k < n { AllRecoveredAt(c, k + 1, used, n); }
  }

  // ----- their round trips -----

  /** A list of resolutions that agrees with the frame's on the used bands. */
  ghost predicate Agrees(l: seq<int>, res: seq<int>, used: nat)
  {
    used <= |l| && used <= |res| && forall n :: 0 <= n < used ==> l[n] == res[n]
  }

  lemma AgreesAt(l: seq<int>, res: seq<int>, used: nat, k: nat)
    requires Agrees(l, res, used) && k < used
    ensures used <= |l| && used <= |res| && l[k] == res[k]
  {}

  /** What the decoder should find for one band. */
  function BandScfi(f: Frame, k: nat): (nat, nat)
    requires |f.l.res| == |f.r.res| == |f.l.scf| == |f.r.scf| == 32 && k < 32
  {
    (if f.l.res[k] != 0 then Scfi(f.l.scf[k]) else 0, if f.r.res[k] != 0 then Scfi(f.r.scf[k]) else 0)
  }

  lemma AllScfiStep(b: Books, f: Frame, k: nat, used: nat, rest: Bits)
    requires BooksValid(b) && FrameOk(f) && k < used <= 32
    ensures AllScfiBits(b, f, k, used) + rest
         == ScfiBits(b, f.l.res[k], f.r.res[k], f.l.scf[k], f.r.scf[k]) + (AllScfiBits(b, f, k + 1, used) + rest)
    ensures AllScfi(f, k, used) == [BandScfi(f, k)] + AllScfi(f, k + 1, used)
  {
    hide BooksValid, ScfiBits, Scfi, ScfOk, BandOk;
    Assoc(ScfiBits(b, f.l.res[k], f.r.res[k], f.l.scf[k], f.r.scf[k]), AllScfiBits(b, f, k + 1, used), rest);
  }

  lemma AllScfiNone(b: Books, f: Frame, l: seq<int>, r: seq<int>, used: nat, rest: Bits)
    requires BooksValid(b) && FrameOk(f) && used <= 32 && used <= |l| && used <= |r|
    ensures |f.l.res| == |f.r.res| == |f.l.scf| == |f.r.scf| == 32
    ensures AllScfiDec(b, l, r, used, used, AllScfiBits(b, f, used, used) + rest) == Got(AllScfi(f, used, used), rest)
  {}

  lemma AllScfiDecStep(b: Books, l: seq<int>, r: seq<int>, k: nat, used: nat, s: Bits,
                       x: (nat, nat), s1: Bits, xs: seq<(nat, nat)>, rest: Bits)
    requires BooksValid(b) && k < used <= |l| && used <= |r|
    requires ScfiDec(b, l[k], r[k], s) == Got(x, s1) && AllScfiDec(b, l, r, k + 1, used, s1) == Got(xs, rest)
    ensures AllScfiDec(b, l, r, k, used, s) == Got([x] + xs, rest)
  {
    hide BooksValid, ScfiDec;
  }

  lemma {:induction false} AllScfiRoundTrip(b: Books, f: Frame, l: seq<int>, r: seq<int>, k: nat, used: nat, rest: Bits)
    requires BooksValid(b) && FrameOk(f) && k <= used <= 32 && used <= |l| && used <= |r|
    requires |f.l.res| == |f.r.res| == |f.l.scf| == |f.r.scf| == 32
    requires Agrees(l, f.l.res, used) && Agrees(r, f.r.res, used)
    ensures AllScfiDec(b, l, r, k, used, AllScfiBits(b, f, k, used) + rest) == Got(AllScfi(f, k, used), rest)
    decreases used - k
  {
    hide *;
    if k == used {
      AllScfiNone(b, f, l, r, used, rest);
    } else {
      AllScfiStep(b, f, k, used, rest);
      AgreesAt(l, f.l.res, used, k);
      AgreesAt(r, f.r.res, used, k);
      var tail := AllScfiBits(b, f, k + 1, used) + rest;
      ScfiRoundTrip(b, l[k], r[k], f.l.scf[k], f.r.scf[k], tail);
      BandScfiIs(f, k);
      AllScfiRoundTrip(b, f, l, r, k + 1, used, rest);
      AllScfiDecStep(b, l, r, k, used, AllScfiBits(b, f, k, used) + rest, BandScfi(f, k), tail,
                     AllScfi(f, k + 1, used), rest);
    }
  }

  lemma BandScfiIs(f: Frame, k: nat)
    requires |f.l.res| == |f.r.res| == |f.l.scf| == |f.r.scf| == 32 && k < 32
    ensures BandScfi(f, k)
         == (if f.l.res[k] != 0 then Scfi(f.l.scf[k]) else 0, if f.r.res[k] != 0 then Scfi(f.r.scf[k]) else 0)
  {}

  /** Encoder and decoder agree on what the next scalefactor of each band will be relative to. */
  ghost predicate SyncChan(m: EncChan, d: DecChan)
    requires |m.last| == |m.flag| == 32 && DecChanOk(d)
  {
    forall n :: 0 <= n < 32 ==> m.flag[n] == d.flag[n] && (m.flag[n] || m.last[n] == d.scf[n].c)
  }

  lemma SyncAt(m: EncMem, d: DecMem, k: nat)
    requires EncMemOk(m) && DecMemOk(d) && k < 32
    ensures |m.l.last| == |m.l.flag| == |m.r.last| == |m.r.flag| == 32
    ensures |d.l.flag| == |d.l.scf| == |d.r.flag| == |d.r.scf| == 32
    ensures SyncChan(m.l, d.l) ==> m.l.flag[k] == d.l.flag[k] && (m.l.flag[k] || m.l.last[k] == d.l.scf[k].c)
    ensures SyncChan(m.r, d.r) ==> m.r.flag[k] == d.r.flag[k] && (m.r.flag[k] || m.r.last[k] == d.r.scf[k].c)
  {}

  lemma AllScfStep(b: Books, f: Frame, m: EncMem, k: nat, used: nat, rest: Bits)
    requires BooksValid(b) && FrameOk(f) && EncMemOk(m) && k < used <= 32
    ensures |f.l.res| == |f.r.res| == |f.l.scf| == |f.r.scf| == 32
    ensures (f.l.res[k] != 0 ==> ScfOk(f.l.scf[k])) && (f.r.res[k] != 0 ==> ScfOk(f.r.scf[k]))
    ensures |m.l.last| == |m.l.flag| == |m.r.last| == |m.r.flag| == 32
    ensures AllScfBits(b, f, m, k, used) + rest
         == ChanBits(b, f.l.res[k], m.l.flag[k], m.l.last[k], f.l.scf[k])
            + (ChanBits(b, f.r.res[k], m.r.flag[k], m.r.last[k], f.r.scf[k]) + (AllScfBits(b, f, m, k + 1, used) + rest))
  {
    hide BooksValid, ChanBits, ScfOk, BandOk;
    var x, y := ChanBits(b, f.l.res[k], m.l.flag[k], m.l.last[k], f.l.scf[k]),
                ChanBits(b, f.r.res[k], m.r.flag[k], m.r.last[k], f.r.scf[k]);
    var z := AllScfBits(b, f, m, k + 1, used);
    Assoc(x, y + z, rest);
    Assoc(y, z, rest);
  }

  lemma AllScfNone(b: Books, f: Frame, m: EncMem, d: DecMem, l: seq<int>, r: seq<int>, used: nat, rest: Bits)
    requires BooksValid(b) && FrameOk(f) && EncMemOk(m) && DecMemOk(d) && used <= 32 && used <= |l| && used <= |r|
    ensures |d.l.scf| == |d.r.scf| == |f.l.res| == |f.r.res| == |f.l.scf| == |f.r.scf| == 32
    ensures AllScfDec(b, l, r, AllScfi(f, used, used), d, used, used, AllScfBits(b, f, m, used, used) + rest)
         == Got((KeptScf(f.l, d.l.scf, used, used), KeptScf(f.r, d.r.scf, used, used)), rest)
  {}

  lemma AllScfDecStep(b: Books, l: seq<int>, r: seq<int>, x: (nat, nat), xs: seq<(nat, nat)>, d: DecMem, k: nat, used: nat,
                      s: Bits, y: Scf, s1: Bits, z: Scf, s2: Bits, more: (seq<Scf>, seq<Scf>), rest: Bits)
    requires BooksValid(b) && DecMemOk(d) && k < used <= 32 && used <= |l| && used <= |r| && |xs| == used - k - 1
    requires |d.l.flag| == |d.l.scf| == |d.r.flag| == |d.r.scf| == 32
    requires ChanDec(b, l[k], d.l.flag[k], d.l.scf[k], x.0, s) == Got(y, s1)
    requires ChanDec(b, r[k], d.r.flag[k], d.r.scf[k], x.1, s1) == Got(z, s2)
    requires AllScfDec(b, l, r, xs, d, k + 1, used, s2) == Got(more, rest)
    ensures AllScfDec(b, l, r, [x] + xs, d, k, used, s) == Got(([y] + more.0, [z] + more.1), rest)
  {
    hide BooksValid, ChanDec;
    assert ([x] + xs)[1..] == xs;
  }

  lemma KeptScfStep(c: Channel, was: seq<Scf>, k: nat, used: nat)
    requires |c.res| == |c.scf| == |was| == 32 && k < used <= 32
    ensures KeptScf(c, was, k, used) == [if c.res[k] != 0 then c.scf[k] else was[k]] + KeptScf(c, was, k + 1, used)
  {}

  lemma {:induction false} AllScfRoundTrip(b: Books, f: Frame, m: EncMem, d: DecMem, l: seq<int>, r: seq<int>,
                                           k: nat, used: nat, rest: Bits)
    requires BooksValid(b) && FrameOk(f) && EncMemOk(m) && DecMemOk(d) && k <= used <= 32 && used <= |l| && used <= |r|
    requires |d.l.scf| == |d.r.scf| == |m.l.last| == |m.l.flag| == |m.r.last| == |m.r.flag| == 32
    requires |f.l.res| == |f.r.res| == |f.l.scf| == |f.r.scf| == 32
    requires DecChanOk(d.l) && DecChanOk(d.r) && SyncChan(m.l, d.l) && SyncChan(m.r, d.r)
    requires Agrees(l, f.l.res, used) && Agrees(r, f.r.res, used)
    ensures AllScfDec(b, l, r, AllScfi(f, k, used), d, k, used, AllScfBits(b, f, m, k, used) + rest)
         == Got((KeptScf(f.l, d.l.scf, k, used), KeptScf(f.r, d.r.scf, k, used)), rest)
    decreases used - k
  {
    hide *;
    if k == used {
      AllScfNone(b, f, m, d, l, r, used, rest);
    } else {
      AllScfStep(b, f, m, k, used, rest);
      AllScfiStep(b, f, k, used, rest);
      BandScfiIs(f, k);
      SyncAt(m, d, k);
      AgreesAt(l, f.l.res, used, k);
      AgreesAt(r, f.r.res, used, k);
      var x, more := BandScfi(f, k), AllScfBits(b, f, m, k + 1, used) + rest;
      var right := ChanBits(b, f.r.res[k], m.r.flag[k], m.r.last[k], f.r.scf[k]) + more;
      ChanRoundTrip(b, f.r.res[k], m.r.flag[k], m.r.last[k], d.r.scf[k], f.r.scf[k], x.1, more);
      ChanRoundTrip(b, f.l.res[k], m.l.flag[k], m.l.last[k], d.l.scf[k], f.l.scf[k], x.0, right);
      KeptScfStep(f.l, d.l.scf, k, used);
      KeptScfStep(f.r, d.r.scf, k, used);
      AllScfRoundTrip(b, f, m, d, l, r, k + 1, used, rest);
      AllScfDecStep(b, l, r, x, AllScfi(f, k + 1, used), d, k, used, AllScfBits(b, f, m, k, used) + rest,
                    if l[k] != 0 then f.l.scf[k] else d.l.scf[k], right,
                    if r[k] != 0 then f.r.scf[k] else d.r.scf[k], more,
                    (KeptScf(f.l, d.l.scf, k + 1, used), KeptScf(f.r, d.r.scf, k + 1, used)), rest);
    }
  }

  lemma AllSampleStep(b: Books, f: Frame, k: nat, used: nat, rest: Bits)
    requires BooksValid(b) && FrameOk(f) && k < used <= 32
    ensures SampleBooksValid(b.samples)
    ensures |f.l.res| == |f.r.res| == |f.l.q| == |f.r.q| == 32
    ensures BandOk(f.l.res[k], f.l.q[k]) && BandOk(f.r.res[k], f.r.q[k])
    ensures -1 <= f.l.res[k] <= 15 && -1 <= f.r.res[k] <= 15
    ensures AllSampleBits(b, f, k, used) + rest
         == SampleBits(b.samples, f.l.res[k], f.l.q[k])
            + (SampleBits(b.samples, f.r.res[k], f.r.q[k]) + (AllSampleBits(b, f, k + 1, used) + rest))
  {
    hide SampleBits, SampleBooksValid, BookValid, ScfOk;
    var x, y, z := SampleBits(b.samples, f.l.res[k], f.l.q[k]), SampleBits(b.samples, f.r.res[k], f.r.q[k]),
                   AllSampleBits(b, f, k + 1, used);
    Assoc(x, y + z, rest);
    Assoc(y, z, rest);
  }

  lemma AllSampleNone(b: Books, f: Frame, l: seq<int>, r: seq<int>, used: nat, rest: Bits)
    requires BooksValid(b) && FrameOk(f) && used <= 32 && InRange(l, used) && InRange(r, used)
    ensures ResOk(f.l.res) && ResOk(f.r.res) && |f.l.q| == |f.r.q| == 32
    ensures AllSampleDec(b, l, r, used, used, AllSampleBits(b, f, used, used) + rest)
         == Got((AllRecovered(f.l, used, used), AllRecovered(f.r, used, used)), rest)
  {}

  lemma AllSampleDecStep(b: Books, l: seq<int>, r: seq<int>, k: nat, used: nat, s: Bits, x: seq<int>, s1: Bits,
                         y: seq<int>, s2: Bits, more: (seq<seq<int>>, seq<seq<int>>), rest: Bits)
    requires BooksValid(b) && SampleBooksValid(b.samples) && k < used && InRange(l, used) && InRange(r, used)
    requires used <= |l| && used <= |r| && -1 <= l[k] <= 15 && -1 <= r[k] <= 15
    requires SampleDec(b.samples, l[k], s) == Got(x, s1) && SampleDec(b.samples, r[k], s1) == Got(y, s2)
    requires AllSampleDec(b, l, r, k + 1, used, s2) == Got(more, rest)
    ensures AllSampleDec(b, l, r, k, used, s) == Got(([x] + more.0, [y] + more.1), rest)
  {
    hide BooksValid, SampleDec, SampleBooksValid;
  }

  lemma AllRecoveredStep(c: Channel, k: nat, used: nat)
    requires ResOk(c.res) && |c.q| == 32 && k < used <= 32
    ensures |c.res| == 32 && -1 <= c.res[k] <= 15
    ensures AllRecovered(c, k, used) == [Recovered(c.res[k], c.q[k])] + AllRecovered(c, k + 1, used)
  {}

  lemma {:induction false} AllSampleRoundTrip(b: Books, f: Frame, l: seq<int>, r: seq<int>, k: nat, used: nat, rest: Bits)
    requires BooksValid(b) && FrameOk(f) && k <= used <= 32 && InRange(l, used) && InRange(r, used)
    requires ResOk(f.l.res) && ResOk(f.r.res) && |f.l.q| == |f.r.q| == 32
    requires Agrees(l, f.l.res, used) && Agrees(r, f.r.res, used)
    ensures AllSampleDec(b, l, r, k, used, AllSampleBits(b, f, k, used) + rest)
         == Got((AllRecovered(f.l, k, used), AllRecovered(f.r, k, used)), rest)
    decreases used - k
  {
    hide *;
    if k == used {
      AllSampleNone(b, f, l, r, used, rest);
    } else {
      AllSampleStep(b, f, k, used, rest);
      AgreesAt(l, f.l.res, used, k);
      AgreesAt(r, f.r.res, used, k);
      var more := AllSampleBits(b, f, k + 1, used) + rest;
      var right := SampleBits(b.samples, f.r.res[k], f.r.q[k]) + more;
      SampleRoundTrip(b.samples, f.r.res[k], f.r.q[k], more);
      SampleRoundTrip(b.samples, f.l.res[k], f.l.q[k], right);
      AllRecoveredStep(f.l, k, used);
      AllRecoveredStep(f.r, k, used);
      AllSampleRoundTrip(b, f, l, r, k + 1, used, rest);
      AllSampleDecStep(b, l, r, k, used, AllSampleBits(b, f, k, used) + rest, Recovered(f.l.res[k], f.l.q[k]), right,
                       Recovered(f.r.res[k], f.r.q[k]), more,
                       (AllRecovered(f.l, k + 1, used), AllRecovered(f.r, k + 1, used)), rest);
    }
  }
}
