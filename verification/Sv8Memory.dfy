/** The two memories: how a frame changes what encoder and decoder remember, and why they stay in step. */
module Sv8Memory {
  import opened BitStrings
  import opened Integers
  import opened Codebooks
  import opened Sv8Samples
  import opened Sv8Header
  import opened Sv8Scf
  import opened Sv8Frame

  // ----- updates of whole arrays -----

  function Zeros(n: nat): (z: seq<int>)
    ensures |z| == n
  {
    if n == 0 then [] else [0] + Zeros(n - 1)
  }

  lemma {:induction false} ZerosAt(n: nat, k: nat)
    requires k < n
    ensures Zeros(n)[k] == 0
  {
    if k > 0 { ZerosAt(n - 1, k - 1); }
  }

  function AllSet(n: nat): (z: seq<bool>)
    ensures |z| == n
  {
    if n == 0 then [] else [true] + AllSet(n - 1)
  }

  lemma {:induction false} AllSetAt(n: nat, k: nat)
    requires k < n
    ensures AllSet(n)[k]
  {
    if k > 0 { AllSetAt(n - 1, k - 1); }
  }

  /** New values in front of the old ones. */
  function Over<T>(xs: seq<T>, was: seq<T>): (r: seq<T>)
    requires |xs| <= |was|
    ensures |r| == |was|
  {
    xs + was[|xs|..]
  }

  /** Resolutions after a frame: those read, zero up to the stream's highest band, beyond it untouched. */
  function NewRes(xs: seq<int>, was: seq<int>, maxBand: nat): (r: seq<int>)
    requires |xs| <= |was| && maxBand < |was|
    ensures |r| == |was|
  {
    if |xs| <= maxBand then Over(xs + Zeros(maxBand + 1 - |xs|), was) else Over(xs, was)
  }

  lemma NewResAt(xs: seq<int>, was: seq<int>, maxBand: nat, n: nat)
    requires |xs| <= |was| && maxBand < |was| && n < |was|
    ensures NewRes(xs, was, maxBand)[n] == if n < |xs| then xs[n] else if n <= maxBand then 0 else was[n]
  {
    hide Zeros;
    if |xs| <= n <= maxBand { ZerosAt(maxBand + 1 - |xs|, n - |xs|); }
  }

  /** A band's flag falls when its first plain scalefactor has gone through. */
  function Cleared(res: seq<int>, flag: seq<bool>, k: nat, used: nat): (r: seq<bool>)
    requires k <= used <= |res| && used <= |flag|
    ensures |r| == |flag| - k
    decreases used - k
  {
    if k == used then flag[used..] else [flag[k] && res[k] == 0] + Cleared(res, flag, k + 1, used)
  }

  lemma {:induction false} ClearedAt(res: seq<int>, flag: seq<bool>, k: nat, used: nat, n: nat)
    requires k <= used <= |res| && used <= |flag| && k <= n < |flag|
    ensures Cleared(res, flag, k, used)[n - k] == (flag[n] && (n < used ==> res[n] == 0))
    decreases used - k
  {
    if k < n && k < used { ClearedAt(res, flag, k + 1, used, n); }
  }

  /** Samples after a frame: silent and noise bands are not decoded. */
  function NewQ(res: seq<int>, xs: seq<seq<int>>, was: seq<seq<int>>, k: nat, used: nat): (r: seq<seq<int>>)
    requires k <= used <= |res| && used <= |was| && |xs| == used - k
    ensures |r| == |was| - k
    decreases used - k
  {
    if k == used then was[used..]
    else [if res[k] >= 1 then xs[0] else was[k]] + NewQ(res, xs[1..], was, k + 1, used)
  }

  lemma {:induction false} NewQAt(res: seq<int>, xs: seq<seq<int>>, was: seq<seq<int>>, k: nat, used: nat, n: nat)
    requires k <= used <= |res| && used <= |was| && |xs| == used - k && k <= n < |was|
    ensures NewQ(res, xs, was, k, used)[n - k] == if n < used && res[n] >= 1 then xs[n - k] else was[n]
    decreases used - k
  {
    if k < n && k < used { NewQAt(res, xs[1..], was, k + 1, used, n); }
  }

  /** The encoder's last scalefactors. */
  function NewLast(c: Channel, last: seq<int>, k: nat, used: nat): (r: seq<int>)
    requires |c.res| == |c.scf| == |last| == 32 && k <= used <= 32
    ensures |r| == 32 - k
    decreases used - k
  {
    if k == used then last[used..]
    else [if c.res[k] != 0 then c.scf[k].c else last[k]] + NewLast(c, last, k + 1, used)
  }

  lemma {:induction false} NewLastAt(c: Channel, last: seq<int>, k: nat, used: nat, n: nat)
    requires |c.res| == |c.scf| == |last| == 32 && k <= used <= 32 && k <= n < 32
    ensures NewLast(c, last, k, used)[n - k] == if n < used && c.res[n] != 0 then c.scf[n].c else last[n]
    decreases used - k
  {
    if k < n && k < used { NewLastAt(c, last, k + 1, used, n); }
  }

  // ----- one frame -----

  /** A key frame makes every band send its next scalefactor plain. */
  function Keyed(flag: seq<bool>, key: bool): (r: seq<bool>)
    requires |flag| == 32
    ensures |r| == 32
  {
    if key then AllSet(32) else flag
  }

  lemma KeyedAt(flag: seq<bool>, key: bool, n: nat)
    requires |flag| == 32 && n < 32
    ensures Keyed(flag, key)[n] == (key || flag[n])
  {
    AllSetAt(32, n);
  }

  function KeyedEnc(m: EncMem, key: bool): (k: EncMem)
    requires EncMemOk(m)
    ensures EncMemOk(k)
  {
    m.(l := EncChan(m.l.last, Keyed(m.l.flag, key)), r := EncChan(m.r.last, Keyed(m.r.flag, key)))
  }

  function KeyedDec(d: DecMem, key: bool): (k: DecMem)
    requires DecMemOk(d)
    ensures DecMemOk(k)
  {
    d.(l := d.l.(flag := Keyed(d.l.flag, key)), r := d.r.(flag := Keyed(d.r.flag, key)))
  }

  /** How many bands a frame uses in a stream whose highest band is `maxBand`. */
  function UsedBands(f: Frame, maxBand: nat): (u: nat)
    requires |f.l.res| == |f.r.res| == 32 && maxBand < 32
    ensures u <= maxBand + 1 <= 32
    ensures u > 0 ==> Coded(f.l.res, f.r.res, u - 1)
    ensures forall n :: u <= n <= maxBand ==> f.l.res[n] == 0 && f.r.res[n] == 0
  {
    Used(f.l.res, f.r.res, maxBand + 1)
  }

  /** The encoder's memory after a frame. */
  function EncNext(m: EncMem, f: Frame, key: bool, maxBand: nat): (n: EncMem)
    requires EncMemOk(m) && FrameOk(f) && maxBand < 32
    ensures EncMemOk(n)
  {
    var used := UsedBands(f, maxBand);
    var k := KeyedEnc(m, key);
    EncMem(used, EncChan(NewLast(f.l, k.l.last, 0, used), Cleared(f.l.res, k.l.flag, 0, used)),
                 EncChan(NewLast(f.r, k.r.last, 0, used), Cleared(f.r.res, k.r.flag, 0, used)))
  }

  function MsPart(msOn: bool, l: seq<int>, r: seq<int>, ms: seq<bool>, used: nat): Bits
    requires used <= 32 && used <= |l| && used <= |r| && used <= |ms|
    requires used > 0 ==> Coded(l, r, used - 1)
  {
    if msOn && used > 0 then
      SomeCoded(l, r, 0, used, used - 1);
      MsBits(l, r, ms, used)
    else []
  }

  function MsPartDec(msOn: bool, l: seq<int>, r: seq<int>, used: nat, was: seq<bool>, s: Bits): (p: Parsed<seq<bool>>)
    requires used <= 32 && used <= |l| && used <= |r| && |was| == 32
    ensures p.Got? ==> |p.value| == 32
    ensures p.Got? ==> |p.rest| <= |s|
  {
    if msOn && used > 0 then
      var (mask, s1) :- MsDec(l, r, used, s);
      Got(Spread(l, r, mask, was, 0, used), s1)
    else Got(was, s)
  }

  function MsAfter(msOn: bool, f: Frame, used: nat, was: seq<bool>): (ms: seq<bool>)
    requires |f.l.res| == |f.r.res| == |f.ms| == |was| == 32 && used <= 32
    ensures |ms| == 32
  {
    if msOn && used > 0 then Spread(f.l.res, f.r.res, MsMask(f.l.res, f.r.res, f.ms, 0, used), was, 0, used) else was
  }

  /** Everything after the side information. */
  function BodyBits(b: Books, f: Frame, m: EncMem, used: nat): Bits
    requires BooksValid(b) && FrameOk(f) && EncMemOk(m) && used <= 32
  {
    AllScfiBits(b, f, 0, used) + (AllScfBits(b, f, m, 0, used) + AllSampleBits(b, f, 0, used))
  }

  datatype Body = Body(scfL: seq<Scf>, scfR: seq<Scf>, qL: seq<seq<int>>, qR: seq<seq<int>>)

  ghost function BodyDec(b: Books, l: seq<int>, r: seq<int>, d: DecMem, used: nat, s: Bits): (p: Parsed<Body>)
    requires BooksValid(b) && DecMemOk(d) && used <= 32 && InRange(l, used) && InRange(r, used)
    ensures p.Got? ==> |p.value.scfL| == |p.value.scfR| == |p.value.qL| == |p.value.qR| == used
    ensures p.Got? ==> |p.rest| <= |s|
  {
    var (xs, s1) :- AllScfiDec(b, l, r, 0, used, s);
    var (scf, s2) :- AllScfDec(b, l, r, xs, d, 0, used, s1);
    var (q, s3) :- AllSampleDec(b, l, r, 0, used, s2);
    Got(Body(scf.0, scf.1, q.0, q.1), s3)
  }

  /** One channel of the decoder after a frame. */
  function NewChan(c: DecChan, res: seq<int>, scf: seq<Scf>, q: seq<seq<int>>, maxBand: nat): (n: DecChan)
    requires DecChanOk(c) && |res| == |scf| == |q| <= 32 && maxBand < 32
    ensures DecChanOk(n)
  {
    DecChan(NewRes(res, c.res, maxBand), Over(scf, c.scf), Cleared(res, c.flag, 0, |res|), NewQ(res, q, c.q, 0, |res|))
  }

  lemma NewChanAt(c: DecChan, res: seq<int>, scf: seq<Scf>, q: seq<seq<int>>, maxBand: nat, n: nat)
    requires DecChanOk(c) && |res| == |scf| == |q| <= 32 && maxBand < 32 && n < 32
    ensures var x := NewChan(c, res, scf, q, maxBand); var used := |res|;
            && x.res[n] == (if n < used then res[n] else if n <= maxBand then 0 else c.res[n])
            && x.scf[n] == (if n < used then scf[n] else c.scf[n])
            && x.flag[n] == (c.flag[n] && (n < used ==> res[n] == 0))
            && x.q[n] == (if n < used && res[n] >= 1 then q[n] else c.q[n])
  {
    hide NewRes, Cleared, NewQ;
    NewResAt(res, c.res, maxBand, n);
    ClearedAt(res, c.flag, 0, |res|, n);
    NewQAt(res, q, c.q, 0, |res|, n);
  }

  /** `writeBitstream_SV8` on one frame. */
  function FrameBits(b: Books, msOn: bool, maxBand: nat, key: bool, m: EncMem, f: Frame): Bits
    requires BooksValid(b) && maxBand < 32 && EncMemOk(m) && FrameOk(f)
  {
    var used := UsedBands(f, maxBand);
    BandsBits(b, key, used, maxBand + 1, m.maxBand)
    + (ResBits(b, f.l.res, f.r.res, used)
       + (MsPart(msOn, f.l.res, f.r.res, f.ms, used) + BodyBits(b, f, KeyedEnc(m, key), used)))
  }

  /** `mpc_decoder_read_bitstream_sv8`: the memory after the frame, which holds the frame. */
  ghost function FrameDec(b: Books, msOn: bool, maxBand: nat, key: bool, d: DecMem, s: Bits): (p: Parsed<DecMem>)
    requires BooksValid(b) && maxBand < 32 && DecMemOk(d)
    ensures p.Got? ==> DecMemOk(p.value)
    ensures p.Got? ==> |p.rest| <= |s|
  {
    var (used, s1) :- BandsDec(b, key, maxBand + 1, d.lastMaxBand, s);
    var (res, s2) :- ResDec(b, s1, used);
    var (ms, s3) :- MsPartDec(msOn, res.0, res.1, used, d.ms, s2);
    var k := KeyedDec(d, key);
    var (body, s4) :- BodyDec(b, res.0, res.1, k, used, s3);
    Got(DecMem(used, NewChan(k.l, res.0, body.scfL, body.qL, maxBand), NewChan(k.r, res.1, body.scfR, body.qR, maxBand), ms),
        s4)
  }

  /** What the decoder holds after reading frame `f`. */
  function FrameAfter(msOn: bool, maxBand: nat, key: bool, d: DecMem, f: Frame): (n: DecMem)
    requires maxBand < 32 && DecMemOk(d) && FrameOk(f)
    ensures DecMemOk(n)
  {
    var used := UsedBands(f, maxBand);
    var k := KeyedDec(d, key);
    DecMem(used,
           NewChan(k.l, f.l.res[..used], KeptScf(f.l, k.l.scf, 0, used), AllRecovered(f.l, 0, used), maxBand),
           NewChan(k.r, f.r.res[..used], KeptScf(f.r, k.r.scf, 0, used), AllRecovered(f.r, 0, used), maxBand),
           MsAfter(msOn, f, used, d.ms))
  }

  /** Encoder and decoder are in step. */
  ghost predicate Sync(m: EncMem, d: DecMem)
    requires EncMemOk(m) && DecMemOk(d)
  {
    m.maxBand == d.lastMaxBand && SyncChan(m.l, d.l) && SyncChan(m.r, d.r)
  }

  // ----- the round trip -----

  lemma MsPartRoundTrip(msOn: bool, f: Frame, used: nat, was: seq<bool>, rest: Bits)
    requires |f.l.res| == |f.r.res| == |f.ms| == |was| == 32 && used <= 32
    requires used > 0 ==> Coded(f.l.res, f.r.res, used - 1)
    ensures MsPartDec(msOn, f.l.res[..used], f.r.res[..used], used, was, MsPart(msOn, f.l.res, f.r.res, f.ms, used) + rest)
         == Got(MsAfter(msOn, f, used, was), rest)
  {
    if msOn && used > 0 {
      MsRoundTripCut(f, used, rest);
      SomeCoded(f.l.res, f.r.res, 0, used, used - 1);
      SpreadCut(f.l.res, f.r.res, used, MsMask(f.l.res, f.r.res, f.ms, 0, used), was, 0);
    } else {
      assert [] + rest == rest;
    }
  }

  /** Only the used bands matter to the flags. */
  lemma {:induction false} CountCut(l: seq<int>, r: seq<int>, used: nat, k: nat)
    requires k <= used <= |l| && used <= |r|
    ensures CountCoded(l[..used], r[..used], k, used) == CountCoded(l, r, k, used)
    decreases used - k
  {
    if k < used { CountCut(l, r, used, k + 1); }
  }

  lemma {:induction false} SpreadCut(l: seq<int>, r: seq<int>, used: nat, mask: Bits, was: seq<bool>, k: nat)
    requires k <= used <= |l| && used <= |r| && used <= |was| && |mask| == CountCoded(l, r, k, used)
    ensures |mask| == CountCoded(l[..used], r[..used], k, used)
    ensures Spread(l[..used], r[..used], mask, was, k, used) == Spread(l, r, mask, was, k, used)
    decreases used - k
  {
    CountCut(l, r, used, k);
    if k < used {
      SpreadCut(l, r, used, if Coded(l, r, k) then mask[1..] else mask, was, k + 1);
    }
  }

  lemma MsRoundTripCut(f: Frame, used: nat, rest: Bits)
    requires |f.l.res| == |f.r.res| == |f.ms| == 32 && 0 < used <= 32 && Coded(f.l.res, f.r.res, used - 1)
    ensures MsDec(f.l.res[..used], f.r.res[..used], used, MsPart(true, f.l.res, f.r.res, f.ms, used) + rest)
         == Got(MsMask(f.l.res, f.r.res, f.ms, 0, used), rest)
  {
    SomeCoded(f.l.res, f.r.res, 0, used, used - 1);
    CountCut(f.l.res, f.r.res, used, 0);
    hide LogDec, LogBits, MaskBits, MaskDec, CountCoded, MsMask, MsBits;
    MsRoundTrip(f.l.res, f.r.res, f.ms, used, rest);
  }

  lemma BodyIs(b: Books, f: Frame, m: EncMem, used: nat, rest: Bits)
    requires BooksValid(b) && FrameOk(f) && EncMemOk(m) && used <= 32
    ensures BodyBits(b, f, m, used) + rest
         == AllScfiBits(b, f, 0, used) + (AllScfBits(b, f, m, 0, used) + (AllSampleBits(b, f, 0, used) + rest))
  {
    hide BooksValid, FrameOk, EncMemOk, AllScfiBits, AllScfBits, AllSampleBits;
    var x, y, z := AllScfiBits(b, f, 0, used), AllScfBits(b, f, m, 0, used), AllSampleBits(b, f, 0, used);
    Assoc(x, y + z, rest);
    Assoc(y, z, rest);
  }

  lemma BodyDecIs(b: Books, l: seq<int>, r: seq<int>, d: DecMem, used: nat, s: Bits, xs: seq<(nat, nat)>, s1: Bits,
                  scf: (seq<Scf>, seq<Scf>), s2: Bits, q: (seq<seq<int>>, seq<seq<int>>), rest: Bits)
    requires BooksValid(b) && DecMemOk(d) && used <= 32 && InRange(l, used) && InRange(r, used)
    requires used <= |l| && used <= |r| && |xs| == used
    requires AllScfiDec(b, l, r, 0, used, s) == Got(xs, s1) && AllScfDec(b, l, r, xs, d, 0, used, s1) == Got(scf, s2)
    requires AllSampleDec(b, l, r, 0, used, s2) == Got(q, rest)
    ensures BodyDec(b, l, r, d, used, s) == Got(Body(scf.0, scf.1, q.0, q.1), rest)
  {
    hide BooksValid, DecMemOk, InRange, AllScfiDec, AllScfDec, AllSampleDec;
  }

  lemma BodyRoundTrip(b: Books, f: Frame, m: EncMem, d: DecMem, l: seq<int>, r: seq<int>, used: nat, rest: Bits)
    requires BooksValid(b) && FrameOk(f) && EncMemOk(m) && DecMemOk(d) && used <= 32
    requires |f.l.res| == |f.r.res| == |f.l.scf| == |f.r.scf| == |f.l.q| == |f.r.q| == 32
    requires ResOk(f.l.res) && ResOk(f.r.res) && |d.l.scf| == |d.r.scf| == 32
    requires |m.l.last| == |m.l.flag| == |m.r.last| == |m.r.flag| == 32 && DecChanOk(d.l) && DecChanOk(d.r)
    requires SyncChan(m.l, d.l) && SyncChan(m.r, d.r)
    requires used <= |l| && used <= |r| && Agrees(l, f.l.res, used) && Agrees(r, f.r.res, used)
    requires InRange(l, used) && InRange(r, used)
    ensures BodyDec(b, l, r, d, used, BodyBits(b, f, m, used) + rest)
         == Got(Body(KeptScf(f.l, d.l.scf, 0, used), KeptScf(f.r, d.r.scf, 0, used),
                     AllRecovered(f.l, 0, used), AllRecovered(f.r, 0, used)), rest)
  {
    hide *;
    BodyIs(b, f, m, used, rest);
    var q := AllSampleBits(b, f, 0, used) + rest;
    var scf := AllScfBits(b, f, m, 0, used) + q;
    AllScfiRoundTrip(b, f, l, r, 0, used, scf);
    AllScfRoundTrip(b, f, m, d, l, r, 0, used, q);
    AllSampleRoundTrip(b, f, l, r, 0, used, rest);
    BodyDecIs(b, l, r, d, used, BodyBits(b, f, m, used) + rest, AllScfi(f, 0, used), scf,
              (KeptScf(f.l, d.l.scf, 0, used), KeptScf(f.r, d.r.scf, 0, used)), q,
              (AllRecovered(f.l, 0, used), AllRecovered(f.r, 0, used)), rest);
  }

  lemma CutAgrees(res: seq<int>, used: nat)
    requires ResOk(res) && used <= 32
    ensures |res| == 32 && Agrees(res[..used], res, used) && InRange(res[..used], used) && BothOk((res[..used], res[..used]), used)
  {}

  lemma KeyedSync(m: EncMem, d: DecMem, key: bool)
    requires EncMemOk(m) && DecMemOk(d) && (key || Sync(m, d))
    ensures var x, y := KeyedEnc(m, key), KeyedDec(d, key);
            && EncMemOk(x) && DecMemOk(y) && |x.l.last| == |x.l.flag| == |x.r.last| == |x.r.flag| == 32
            && DecChanOk(y.l) && DecChanOk(y.r) && SyncChan(x.l, y.l) && SyncChan(x.r, y.r)
            && y.l.scf == d.l.scf && y.r.scf == d.r.scf && |d.l.scf| == |d.r.scf| == |d.ms| == 32
            && (!key ==> m.maxBand == d.lastMaxBand) && m.maxBand <= 32 && d.lastMaxBand <= 32
  {
    hide Keyed;
    forall n | 0 <= n < 32
      ensures Keyed(m.l.flag, key)[n] == (key || m.l.flag[n]) && Keyed(d.l.flag, key)[n] == (key || d.l.flag[n])
      ensures Keyed(m.r.flag, key)[n] == (key || m.r.flag[n]) && Keyed(d.r.flag, key)[n] == (key || d.r.flag[n])
    {
      KeyedAt(m.l.flag, key, n);
      KeyedAt(d.l.flag, key, n);
      KeyedAt(m.r.flag, key, n);
      KeyedAt(d.r.flag, key, n);
    }
  }

  lemma FrameBitsIs(b: Books, msOn: bool, maxBand: nat, key: bool, m: EncMem, f: Frame, rest: Bits)
    requires BooksValid(b) && maxBand < 32 && EncMemOk(m) && FrameOk(f)
    ensures |f.l.res| == |f.r.res| == |f.ms| == 32 && m.maxBand <= 32
    ensures var used := UsedBands(f, maxBand);
            && used <= maxBand + 1 && (used > 0 ==> Coded(f.l.res, f.r.res, used - 1))
            && ResOk(f.l.res) && ResOk(f.r.res) && EncMemOk(KeyedEnc(m, key))
            && FrameBits(b, msOn, maxBand, key, m, f) + rest
               == BandsBits(b, key, used, maxBand + 1, m.maxBand)
                  + (ResBits(b, f.l.res, f.r.res, used)
                     + (MsPart(msOn, f.l.res, f.r.res, f.ms, used) + (BodyBits(b, f, KeyedEnc(m, key), used) + rest)))
  {
    hide BooksValid, BandsBits, ResBits, MsPart, BodyBits, UsedBands, KeyedEnc, Coded, ScfOk, BandOk;
    var used := UsedBands(f, maxBand);
    var x, y, z, w := BandsBits(b, key, used, maxBand + 1, m.maxBand), ResBits(b, f.l.res, f.r.res, used),
                      MsPart(msOn, f.l.res, f.r.res, f.ms, used), BodyBits(b, f, KeyedEnc(m, key), used);
    Assoc(x, y + (z + w), rest);
    Assoc(y, z + w, rest);
    Assoc(z, w, rest);
  }

  lemma FrameDecIs(b: Books, msOn: bool, maxBand: nat, key: bool, d: DecMem, s: Bits, used: nat, s1: Bits,
                   l: seq<int>, r: seq<int>, s2: Bits, ms: seq<bool>, s3: Bits, body: Body, rest: Bits)
    requires BooksValid(b) && maxBand < 32 && DecMemOk(d) && d.lastMaxBand <= 32 && |d.ms| == 32 && used <= 32
    requires BandsDec(b, key, maxBand + 1, d.lastMaxBand, s) == Got(used, s1)
    requires ResDec(b, s1, used) == Got((l, r), s2)
    requires used == |l| == |r| && InRange(l, used) && InRange(r, used)
    requires MsPartDec(msOn, l, r, used, d.ms, s2) == Got(ms, s3) && |ms| == 32
    requires DecMemOk(KeyedDec(d, key)) && BodyDec(b, l, r, KeyedDec(d, key), used, s3) == Got(body, rest)
    requires |body.scfL| == |body.scfR| == |body.qL| == |body.qR| == used
    ensures var k := KeyedDec(d, key);
            DecChanOk(k.l) && DecChanOk(k.r)
            && FrameDec(b, msOn, maxBand, key, d, s)
               == Got(DecMem(used, NewChan(k.l, l, body.scfL, body.qL, maxBand), NewChan(k.r, r, body.scfR, body.qR, maxBand), ms),
                      rest)
  {
    hide BooksValid, BandsDec, ResDec, MsPartDec, BodyDec, NewChan, KeyedDec;
  }

  lemma FrameAfterIs(msOn: bool, maxBand: nat, key: bool, d: DecMem, f: Frame)
    requires maxBand < 32 && DecMemOk(d) && FrameOk(f)
    ensures |f.l.res| == |f.r.res| == |f.l.scf| == |f.r.scf| == |f.l.q| == |f.r.q| == |f.ms| == |d.ms| == 32
    ensures ResOk(f.l.res) && ResOk(f.r.res) && DecMemOk(KeyedDec(d, key))
    ensures var used := UsedBands(f, maxBand);
            var k := KeyedDec(d, key);
            && used <= 32 && DecChanOk(k.l) && DecChanOk(k.r) && |k.l.scf| == |k.r.scf| == 32
            && FrameAfter(msOn, maxBand, key, d, f)
               == DecMem(used,
                    NewChan(k.l, f.l.res[..used], KeptScf(f.l, k.l.scf, 0, used), AllRecovered(f.l, 0, used), maxBand),
                    NewChan(k.r, f.r.res[..used], KeptScf(f.r, k.r.scf, 0, used), AllRecovered(f.r, 0, used), maxBand),
                    MsAfter(msOn, f, used, d.ms))
  {
    hide NewChan, KeptScf, AllRecovered, MsAfter, ScfOk, BandOk, KeyedDec, UsedBands;
  }

  /** Decoding undoes encoding, whatever follows, when the memories agree; for a key frame, from any two
      memories at all. */
  lemma FrameRoundTrip(b: Books, msOn: bool, maxBand: nat, key: bool, m: EncMem, d: DecMem, f: Frame, rest: Bits)
    requires BooksValid(b) && maxBand < 32 && EncMemOk(m) && DecMemOk(d) && FrameOk(f) && (key || Sync(m, d))
    ensures FrameDec(b, msOn, maxBand, key, d, FrameBits(b, msOn, maxBand, key, m, f) + rest)
         == Got(FrameAfter(msOn, maxBand, key, d, f), rest)
  {
    hide *;
    FrameBitsIs(b, msOn, maxBand, key, m, f, rest);
    KeyedSync(m, d, key);
    FrameAfterIs(msOn, maxBand, key, d, f);
    var used := UsedBands(f, maxBand);
    var x, y := KeyedEnc(m, key), KeyedDec(d, key);
    var s4 := BodyBits(b, f, x, used) + rest;
    var s3 := MsPart(msOn, f.l.res, f.r.res, f.ms, used) + s4;
    var s2 := ResBits(b, f.l.res, f.r.res, used) + s3;
    CutAgrees(f.l.res, used);
    CutAgrees(f.r.res, used);
    var last := if key then d.lastMaxBand else m.maxBand;
    KeyIgnoresLast(b, key, used, maxBand + 1, m.maxBand, last);
    BandsRoundTrip(b, key, used, maxBand + 1, last, s2);
    ResRoundTrip(b, f.l.res, f.r.res, used, s3);
    MsPartRoundTrip(msOn, f, used, d.ms, s4);
    BodyRoundTrip(b, f, x, y, f.l.res[..used], f.r.res[..used], used, rest);
    FrameDecIs(b, msOn, maxBand, key, d, FrameBits(b, msOn, maxBand, key, m, f) + rest, used, s2,
               f.l.res[..used], f.r.res[..used], s3, MsAfter(msOn, f, used, d.ms), s4,
               Body(KeptScf(f.l, y.l.scf, 0, used), KeptScf(f.r, y.r.scf, 0, used),
                    AllRecovered(f.l, 0, used), AllRecovered(f.r, 0, used)), rest);
  }

  lemma KeyIgnoresLast(b: Books, key: bool, used: nat, max: nat, a: nat, c: nat)
    requires BooksValid(b) && used <= max <= 32 && 1 <= max && a <= 32 && c <= 32 && (key || a == c)
    ensures BandsBits(b, key, used, max, a) == BandsBits(b, key, used, max, c)
  {}
}
