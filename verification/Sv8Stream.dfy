/** Runs of frames, blocks, and the whole audio stream. */
module Sv8Stream {
  import opened BitStrings
  import opened Integers
  import opened Sizes
  import opened Codebooks
  import opened Sv8Samples
  import opened Sv8Header
  import opened Sv8Scf
  import opened Sv8Frame
  import opened Sv8Memory

  // ----- what it means to recover a frame -----

  /** One channel came through: every resolution, the scalefactors of coded bands, and the samples of
      quantised bands, moved to the decoder's origin. */
  ghost predicate ChanRecovered(c: Channel, d: DecChan, used: nat, maxBand: nat)
  {
    && |c.res| == |c.scf| == |c.q| == 32 && DecChanOk(d) && ResOk(c.res) && used <= maxBand + 1 <= 32
    && (forall n :: 0 <= n <= maxBand ==> d.res[n] == c.res[n])
    && (forall n :: 0 <= n <= maxBand && c.res[n] != 0 ==> d.scf[n] == c.scf[n])
    && (forall n :: 0 <= n <= maxBand && c.res[n] >= 1 ==> d.q[n] == Decoded(c.res[n], c.q[n]))
  }

  ghost predicate Recovers(msOn: bool, maxBand: nat, f: Frame, d: DecMem)
  {
    && FrameOk(f) && DecMemOk(d) && maxBand < 32
    && d.lastMaxBand == UsedBands(f, maxBand)
    && ChanRecovered(f.l, d.l, d.lastMaxBand, maxBand) && ChanRecovered(f.r, d.r, d.lastMaxBand, maxBand)
    && (msOn ==> forall n :: 0 <= n <= maxBand && Coded(f.l.res, f.r.res, n) ==> d.ms[n] == f.ms[n])
  }

  lemma ChanAfter(c: Channel, k: DecChan, used: nat, maxBand: nat)
    requires ChannelOk(c) && DecChanOk(k) && used <= maxBand + 1 <= 32
    requires forall n :: used <= n <= maxBand ==> c.res[n] == 0
    ensures ChanRecovered(c, NewChan(k, c.res[..used], KeptScf(c, k.scf, 0, used), AllRecovered(c, 0, used), maxBand), used, maxBand)
  {
    hide NewChan, KeptScf, AllRecovered, Decoded, Recovered, ScfOk, BandOk;
    var scf, q := KeptScf(c, k.scf, 0, used), AllRecovered(c, 0, used);
    var d := NewChan(k, c.res[..used], scf, q, maxBand);
    forall n | 0 <= n <= maxBand
      ensures d.res[n] == c.res[n] && (c.res[n] != 0 ==> d.scf[n] == c.scf[n])
      ensures c.res[n] >= 1 ==> d.q[n] == Decoded(c.res[n], c.q[n])
    {
      NewChanAt(k, c.res[..used], scf, q, maxBand, n);
      if n < used {
        KeptScfAt(c, k.scf, 0, used, n);
        AllRecoveredAt(c, 0, used, n);
        RecoveredIs(c.res[n], c.q[n]);
      }
    }
  }

  lemma RecoveredIs(res: int, q: seq<int>)
    requires -1 <= res <= 15
    ensures res >= 1 ==> Recovered(res, q) == Decoded(res, q)
  {}

  lemma MsAfterAt(f: Frame, used: nat, was: seq<bool>, n: nat)
    requires |f.l.res| == |f.r.res| == |f.ms| == |was| == 32 && n < used <= 32 && Coded(f.l.res, f.r.res, n)
    ensures MsAfter(true, f, used, was)[n] == f.ms[n]
  {
    hide MsMask, Spread;
    SpreadMask(f.l.res, f.r.res, f.ms, was, 0, used, n);
  }

  lemma AfterRecovers(msOn: bool, maxBand: nat, key: bool, d: DecMem, f: Frame)
    requires maxBand < 32 && DecMemOk(d) && FrameOk(f)
    ensures Recovers(msOn, maxBand, f, FrameAfter(msOn, maxBand, key, d, f))
  {
    hide NewChan, KeptScf, AllRecovered, MsAfter, ScfOk, BandOk, KeyedDec, ChanRecovered;
    FrameAfterIs(msOn, maxBand, key, d, f);
    var used, k := UsedBands(f, maxBand), KeyedDec(d, key);
    ChanAfter(f.l, k.l, used, maxBand);
    ChanAfter(f.r, k.r, used, maxBand);
    if msOn {
      forall n | 0 <= n <= maxBand && Coded(f.l.res, f.r.res, n)
        ensures MsAfter(true, f, used, d.ms)[n] == f.ms[n]
      {
        MsAfterAt(f, used, d.ms, n);
      }
    }
  }

  // ----- staying in step -----

  lemma ChanSync(c: Channel, m: EncChan, k: DecChan, used: nat, maxBand: nat)
    requires |c.res| == |c.scf| == |c.q| == 32 && ResOk(c.res) && |m.last| == |m.flag| == 32 && DecChanOk(k)
    requires SyncChan(m, k) && used <= maxBand + 1 <= 32
    ensures SyncChan(EncChan(NewLast(c, m.last, 0, used), Cleared(c.res, m.flag, 0, used)),
                     NewChan(k, c.res[..used], KeptScf(c, k.scf, 0, used), AllRecovered(c, 0, used), maxBand))
  {
    hide NewChan, KeptScf, AllRecovered, NewLast, Cleared;
    var scf, q := KeptScf(c, k.scf, 0, used), AllRecovered(c, 0, used);
    var d := NewChan(k, c.res[..used], scf, q, maxBand);
    var e := EncChan(NewLast(c, m.last, 0, used), Cleared(c.res, m.flag, 0, used));
    forall n | 0 <= n < 32
      ensures e.flag[n] == d.flag[n] && (e.flag[n] || e.last[n] == d.scf[n].c)
    {
      NewChanAt(k, c.res[..used], scf, q, maxBand, n);
      NewLastAt(c, m.last, 0, used, n);
      ClearedAt(c.res, m.flag, 0, used, n);
      if n < used { KeptScfAt(c, k.scf, 0, used, n); }
    }
  }

  lemma EncNextIs(m: EncMem, f: Frame, key: bool, maxBand: nat)
    requires EncMemOk(m) && FrameOk(f) && maxBand < 32
    ensures |f.l.res| == |f.l.scf| == |f.l.q| == |f.r.res| == |f.r.scf| == |f.r.q| == 32
    ensures ResOk(f.l.res) && ResOk(f.r.res) && EncMemOk(KeyedEnc(m, key)) && EncMemOk(EncNext(m, f, key, maxBand))
    ensures var used, k, e := UsedBands(f, maxBand), KeyedEnc(m, key), EncNext(m, f, key, maxBand);
            && |k.l.last| == |k.l.flag| == |k.r.last| == |k.r.flag| == 32 && used <= maxBand + 1
            && e == EncMem(used, EncChan(NewLast(f.l, k.l.last, 0, used), Cleared(f.l.res, k.l.flag, 0, used)),
                                 EncChan(NewLast(f.r, k.r.last, 0, used), Cleared(f.r.res, k.r.flag, 0, used)))
  {
    hide NewLast, Cleared, ScfOk, BandOk;
  }

  /** A frame leaves both memories in step, if they were, or if it is a key frame. */
  lemma FrameKeepsSync(msOn: bool, maxBand: nat, key: bool, m: EncMem, d: DecMem, f: Frame)
    requires maxBand < 32 && EncMemOk(m) && DecMemOk(d) && FrameOk(f) && (key || Sync(m, d))
    ensures Sync(EncNext(m, f, key, maxBand), FrameAfter(msOn, maxBand, key, d, f))
  {
    EncNextIs(m, f, key, maxBand);
    FrameAfterIs(msOn, maxBand, key, d, f);
    KeyedSync(m, d, key);
    hide EncNext, FrameAfter, NewChan, NewLast, Cleared, KeptScf, AllRecovered, MsAfter, ScfOk, BandOk, ResOk,
         KeyedDec, KeyedEnc, UsedBands, FrameOk, ChannelOk, SyncChan;
    var used, x, y := UsedBands(f, maxBand), KeyedEnc(m, key), KeyedDec(d, key);
    ChanSync(f.l, x.l, y.l, used, maxBand);
    ChanSync(f.r, x.r, y.r, used, maxBand);
  }

  // ----- runs of frames -----

  ghost predicate FramesOk(fs: seq<Frame>)
  {
    forall i :: 0 <= i < |fs| ==> FrameOk(fs[i])
  }

  /** The frames of one block: the first is a key frame exactly when `key`. */
  function RunBits(b: Books, msOn: bool, maxBand: nat, key: bool, m: EncMem, fs: seq<Frame>): Bits
    requires BooksValid(b) && maxBand < 32 && EncMemOk(m) && FramesOk(fs)
    decreases |fs|
  {
    if fs == [] then []
    else FrameBits(b, msOn, maxBand, key, m, fs[0])
         + RunBits(b, msOn, maxBand, false, EncNext(m, fs[0], key, maxBand), fs[1..])
  }

  function RunEnc(maxBand: nat, key: bool, m: EncMem, fs: seq<Frame>): (e: EncMem)
    requires maxBand < 32 && EncMemOk(m) && FramesOk(fs)
    ensures EncMemOk(e)
    decreases |fs|
  {
    if fs == [] then m else RunEnc(maxBand, false, EncNext(m, fs[0], key, maxBand), fs[1..])
  }

  /** Decodes `n` frames, keeping what each left behind. */
  ghost function RunDec(b: Books, msOn: bool, maxBand: nat, key: bool, d: DecMem, n: nat, s: Bits): (p: Parsed<seq<DecMem>>)
    requires BooksValid(b) && maxBand < 32 && DecMemOk(d)
    ensures p.Got? ==> |p.value| == n
    ensures p.Got? ==> |p.rest| <= |s|
    decreases n
  {
    if n == 0 then Got([], s)
    else
      var (x, s1) :- FrameDec(b, msOn, maxBand, key, d, s);
      var (xs, s2) :- RunDec(b, msOn, maxBand, false, x, n - 1, s1);
      Got([x] + xs, s2)
  }

  ghost predicate AllRecovers(msOn: bool, maxBand: nat, fs: seq<Frame>, ds: seq<DecMem>)
  {
    |ds| == |fs| && forall i :: 0 <= i < |fs| ==> Recovers(msOn, maxBand, fs[i], ds[i])
  }

  lemma RunBitsStep(b: Books, msOn: bool, maxBand: nat, key: bool, m: EncMem, fs: seq<Frame>, rest: Bits)
    requires BooksValid(b) && maxBand < 32 && EncMemOk(m) && FramesOk(fs) && fs != []
    ensures FrameOk(fs[0]) && FramesOk(fs[1..]) && EncMemOk(EncNext(m, fs[0], key, maxBand))
    ensures RunBits(b, msOn, maxBand, key, m, fs) + rest
         == FrameBits(b, msOn, maxBand, key, m, fs[0])
            + (RunBits(b, msOn, maxBand, false, EncNext(m, fs[0], key, maxBand), fs[1..]) + rest)
  {
    hide BooksValid, EncMemOk, FrameOk, FrameBits, EncNext;
    Assoc(FrameBits(b, msOn, maxBand, key, m, fs[0]),
          RunBits(b, msOn, maxBand, false, EncNext(m, fs[0], key, maxBand), fs[1..]), rest);
  }

  lemma RunDecStep(b: Books, msOn: bool, maxBand: nat, key: bool, d: DecMem, n: nat, s: Bits,
                   x: DecMem, s1: Bits, xs: seq<DecMem>, rest: Bits)
    requires BooksValid(b) && maxBand < 32 && DecMemOk(d) && n > 0 && DecMemOk(x)
    requires FrameDec(b, msOn, maxBand, key, d, s) == Got(x, s1)
    requires RunDec(b, msOn, maxBand, false, x, n - 1, s1) == Got(xs, rest)
    ensures RunDec(b, msOn, maxBand, key, d, n, s) == Got([x] + xs, rest)
  {
    hide BooksValid, DecMemOk, FrameDec;
  }

  lemma RunNone(b: Books, msOn: bool, maxBand: nat, key: bool, m: EncMem, d: DecMem, rest: Bits)
    requires BooksValid(b) && maxBand < 32 && EncMemOk(m) && DecMemOk(d)
    ensures FramesOk([]) && RunDec(b, msOn, maxBand, key, d, 0, RunBits(b, msOn, maxBand, key, m, []) + rest) == Got([], rest)
    ensures AllRecovers(msOn, maxBand, [], [])
  {
    hide BooksValid, EncMemOk, FrameOk;
  }

  lemma AllRecoversStep(msOn: bool, maxBand: nat, fs: seq<Frame>, x: DecMem, xs: seq<DecMem>)
    requires fs != [] && Recovers(msOn, maxBand, fs[0], x) && AllRecovers(msOn, maxBand, fs[1..], xs)
    ensures AllRecovers(msOn, maxBand, fs, [x] + xs)
  {
    hide Recovers;
  }

  /** Every frame of a run comes back, from memories in step; a run that starts with a key frame comes back
      from any memory of the decoder. */
  lemma {:induction false} RunRoundTrip(b: Books, msOn: bool, maxBand: nat, key: bool, m: EncMem, d: DecMem,
                                        fs: seq<Frame>, rest: Bits) returns (ds: seq<DecMem>)
    requires BooksValid(b) && maxBand < 32 && EncMemOk(m) && DecMemOk(d) && FramesOk(fs) && (key || Sync(m, d))
    ensures RunDec(b, msOn, maxBand, key, d, |fs|, RunBits(b, msOn, maxBand, key, m, fs) + rest) == Got(ds, rest)
    ensures AllRecovers(msOn, maxBand, fs, ds)
    decreases |fs|
  {
    hide *;
    if fs == [] {
      RunNone(b, msOn, maxBand, key, m, d, rest);
      ds := [];
    } else {
      RunBitsStep(b, msOn, maxBand, key, m, fs, rest);
      var n := EncNext(m, fs[0], key, maxBand);
      var x := FrameAfter(msOn, maxBand, key, d, fs[0]);
      var tail := RunBits(b, msOn, maxBand, false, n, fs[1..]) + rest;
      FrameRoundTrip(b, msOn, maxBand, key, m, d, fs[0], tail);
      AfterRecovers(msOn, maxBand, key, d, fs[0]);
      FrameKeepsSync(msOn, maxBand, key, m, d, fs[0]);
      var xs := RunRoundTrip(b, msOn, maxBand, false, n, x, fs[1..], rest);
      RunDecStep(b, msOn, maxBand, key, d, |fs|, RunBits(b, msOn, maxBand, key, m, fs) + rest, x, tail, xs, rest);
      AllRecoversStep(msOn, maxBand, fs, x, xs);
      ds := [x] + xs;
    }
  }
}
