/** From a decoded frame to subband samples: requantisation, scaling, and the way back from mid and side. */
module Requantising {
  import opened Sv8Samples
  import opened Sv8Header
  import opened Sv8Scf
  import opened Sv8Frame
  import opened Sv8Memory
  import opened Sv8Stream
  import opened Sv8DecoderState

  /** The table `Cc` of step sizes by resolution, and the table `SCF` of 256 scalefactors. */
  datatype Gain = Gain(cc: int -> real, scf: int -> real)

  /** What the 36 samples of a band are given as. */
  datatype Band = Band(res: int, scf: Scf, q: seq<int>)

  /** A band has three scalefactors, for twelve samples each. */
  function ScfAt(s: Scf, n: nat): int { if n < 12 then s.a else if n < 24 then s.b else s.c }

  function Factor(g: Gain, x: Band, n: nat): real { g.cc(x.res) * g.scf(ScfAt(x.scf, n) % 256) }

  /** One sample; a band without samples is silent. */
  function Sample(g: Gain, x: Band, n: nat): real
  {
    if x.res == 0 || n >= |x.q| then 0.0 else Factor(g, x, n) * (x.q[n] as real)
  }

  /** What the left or the right channel holds, when the two coded signals are `l` and `r`. */
  function Mixed(ms: bool, right: bool, l: real, r: real): real
  {
    if ms then (if right then l - r else l + r) else if right then r else l
  }

  /** A band of a frame as the encoder holds it, with the samples at the decoder's origin. */
  ghost function Coded1(c: Channel, k: nat): Band
    requires |c.res| == |c.scf| == |c.q| == 32 && k < 32 && -1 <= c.res[k] <= 15
  {
    Band(c.res[k], c.scf[k], if c.res[k] >= 1 then Decoded(c.res[k], c.q[k]) else [])
  }

  function Decoded1(c: DecChan, k: nat): Band
    requires |c.res| == |c.scf| == |c.q| == 32 && k < 32
  {
    Band(c.res[k], c.scf[k], c.q[k])
  }

  /** Subband `k` of slot `n` of one channel of a frame. */
  ghost function FrameSample(g: Gain, msOn: bool, maxBand: nat, f: Frame, right: bool, n: nat, k: nat): real
    requires FrameOk(f)
  {
    if k > maxBand || k >= 32 then 0.0
    else Mixed(msOn && f.ms[k], right, Sample(g, Coded1(f.l, k), n), Sample(g, Coded1(f.r, k), n))
  }

  /** The subband samples of one channel of a frame, 36 slots of 32. */
  ghost function FrameSubbands(g: Gain, msOn: bool, maxBand: nat, f: Frame, right: bool): (ys: seq<seq<real>>)
    requires FrameOk(f)
    ensures |ys| == 36
  {
    seq(36, n requires 0 <= n < 36 => seq(32, k requires 0 <= k < 32 => FrameSample(g, msOn, maxBand, f, right, n, k)))
  }

  /** The same, of what the decoder holds. */
  function DecSample(g: Gain, msOn: bool, d: DecMem, right: bool, n: nat, k: nat): real
    requires DecMemOk(d) && k < 32
  {
    Mixed(msOn && d.ms[k], right, Sample(g, Decoded1(d.l, k), n), Sample(g, Decoded1(d.r, k), n))
  }

  /** Noise bands are filled from a generator: of them, the frame says nothing. */
  ghost predicate Plain(f: Frame) { FrameOk(f) && forall k :: 0 <= k < 32 ==> f.l.res[k] >= 0 && f.r.res[k] >= 0 }

  /** A decoder that has recovered a frame has its subband samples. */
  lemma SameSample(g: Gain, msOn: bool, maxBand: nat, f: Frame, d: DecMem, right: bool, n: nat, k: nat)
    requires Recovers(msOn, maxBand, f, d) && Plain(f) && k <= maxBand
    ensures FrameOk(f) && DecMemOk(d) && k < 32
    ensures DecSample(g, msOn, d, right, n, k) == FrameSample(g, msOn, maxBand, f, right, n, k)
  {
    hide Decoded, Factor;
    SameBand(f.l, d.l, d.lastMaxBand, maxBand, k);
    SameBand(f.r, d.r, d.lastMaxBand, maxBand, k);
    SilentSample(g, Decoded1(d.l, k), Coded1(f.l, k), n);
    SilentSample(g, Decoded1(d.r, k), Coded1(f.r, k), n);
  }

  lemma SameBand(c: Channel, d: DecChan, used: nat, maxBand: nat, k: nat)
    requires ChanRecovered(c, d, used, maxBand) && k <= maxBand && c.res[k] >= 0
    ensures k < 32 && Decoded1(d, k).res == Coded1(c, k).res && (c.res[k] != 0 ==> Decoded1(d, k) == Coded1(c, k))
  {
    hide Decoded;
  }

  lemma SilentSample(g: Gain, x: Band, y: Band, n: nat)
    requires x.res == y.res && (x.res != 0 ==> x == y)
    ensures Sample(g, x, n) == Sample(g, y, n)
  {}

  /** One channel's array of subband samples. */
  function Rows(y: array2<real>): (ys: seq<seq<real>>)
    requires y.Length0 == 36 && y.Length1 == 32
    reads y
    ensures |ys| == 36
  {
    seq(36, n requires 0 <= n < 36 reads y => seq(32, k requires 0 <= k < 32 reads y => y[n, k]))
  }

  lemma MixedIs(ms: bool, l: real, r: real)
    ensures Mixed(ms, false, l, r) == if ms then l + r else l
    ensures Mixed(ms, true, l, r) == if ms then l - r else r
  {}

  /** The samples of both channels of a band: each third is scaled by its own factor, then mid and side are undone. */
  lemma ScaledAndMixed(g: Gain, ms: bool, x: Band, y: Band, n: nat)
    ensures var a := if x.res == 0 || n >= |x.q| then 0.0
                     else if n < 12 then g.cc(x.res) * g.scf(x.scf.a % 256) * (x.q[n] as real)
                     else if n < 24 then g.cc(x.res) * g.scf(x.scf.b % 256) * (x.q[n] as real)
                     else g.cc(x.res) * g.scf(x.scf.c % 256) * (x.q[n] as real);
            var b := if y.res == 0 || n >= |y.q| then 0.0
                     else if n < 12 then g.cc(y.res) * g.scf(y.scf.a % 256) * (y.q[n] as real)
                     else if n < 24 then g.cc(y.res) * g.scf(y.scf.b % 256) * (y.q[n] as real)
                     else g.cc(y.res) * g.scf(y.scf.c % 256) * (y.q[n] as real);
            && Mixed(ms, false, Sample(g, x, n), Sample(g, y, n)) == (if ms then a + b else a)
            && Mixed(ms, true, Sample(g, x, n), Sample(g, y, n)) == (if ms then a - b else b)
  {}

  /** A sample, with the factor of its third. */
  function Times(g: Gain, x: Band, from: nat, n: nat, fac: real): (r: real)
    requires (from == 0 || from == 12 || from == 24) && from <= n < from + 12 && fac == Factor(g, x, from)
    ensures r == Sample(g, x, n)
  {
    if x.res == 0 || n >= |x.q| then 0.0 else fac * (x.q[n] as real)
  }

  /** Twelve samples of a band, in place, with the factors of that third. */
  method FillThird(msBand: bool, xl: Band, xr: Band, g: Gain, from: nat, yl: array2<real>, yr: array2<real>, k: nat)
    requires yl != yr && yl.Length0 == yr.Length0 == 36 && yl.Length1 == yr.Length1 == 32 && k < 32
    requires from == 0 || from == 12 || from == 24
    modifies yl, yr
    ensures forall n, j :: 0 <= n < 36 && 0 <= j < 32 && (j != k || !(from <= n < from + 12)) ==>
              yl[n, j] == old(yl[n, j]) && yr[n, j] == old(yr[n, j])
    ensures forall n :: from <= n < from + 12 ==> yl[n, k] == Mixed(msBand, false, Sample(g, xl, n), Sample(g, xr, n))
    ensures forall n :: from <= n < from + 12 ==> yr[n, k] == Mixed(msBand, true, Sample(g, xl, n), Sample(g, xr, n))
  {
    hide *;
    var facL, facR := Factor(g, xl, from), Factor(g, xr, from);
    var n := from;
    while n < from + 12
      invariant from <= n <= from + 12
      invariant forall m, j :: 0 <= m < 36 && 0 <= j < 32 && (j != k || !(from <= m < n)) ==>
                  yl[m, j] == old(yl[m, j]) && yr[m, j] == old(yr[m, j])
      invariant forall m :: from <= m < n ==> yl[m, k] == Mixed(msBand, false, Sample(g, xl, m), Sample(g, xr, m))
      invariant forall m :: from <= m < n ==> yr[m, k] == Mixed(msBand, true, Sample(g, xl, m), Sample(g, xr, m))
    {
      var l, r := Times(g, xl, from, n, facL), Times(g, xr, from, n, facR);
      MixedIs(msBand, l, r);
      if msBand {
        yl[n, k], yr[n, k] := l + r, l - r;
      } else {
        yl[n, k], yr[n, k] := l, r;
      }
      n := n + 1;
    }
  }

  /** Every band, one after the other. */
  method FillBands(g: Gain, msOn: bool, maxBand: nat, dec: FrameDecoder, yl: array2<real>, yr: array2<real>)
    requires dec.Valid() && maxBand < 32
    requires yl != yr && yl.Length0 == yr.Length0 == 36 && yl.Length1 == yr.Length1 == 32
    modifies yl, yr
    ensures forall n, k :: 0 <= n < 36 && 0 <= k <= maxBand ==> yl[n, k] == DecSample(g, msOn, dec.Mem(), false, n, k)
    ensures forall n, k :: 0 <= n < 36 && 0 <= k <= maxBand ==> yr[n, k] == DecSample(g, msOn, dec.Mem(), true, n, k)
    ensures forall n, k :: 0 <= n < 36 && maxBand < k < 32 ==> yl[n, k] == old(yl[n, k]) && yr[n, k] == old(yr[n, k])
  {
    hide Mixed, Sample;
    var k := 0;
    while k <= maxBand
      invariant 0 <= k <= maxBand + 1
      invariant forall n, j :: 0 <= n < 36 && 0 <= j < k ==> yl[n, j] == DecSample(g, msOn, dec.Mem(), false, n, j)
      invariant forall n, j :: 0 <= n < 36 && 0 <= j < k ==> yr[n, j] == DecSample(g, msOn, dec.Mem(), true, n, j)
      invariant forall n, j :: 0 <= n < 36 && k <= j < 32 ==> yl[n, j] == old(yl[n, j]) && yr[n, j] == old(yr[n, j])
    {
      var xl, xr := Band(dec.resL[k], dec.scfL[k], dec.qL[k]), Band(dec.resR[k], dec.scfR[k], dec.qR[k]);
      FillThird(msOn && dec.ms[k], xl, xr, g, 0, yl, yr, k);
      FillThird(msOn && dec.ms[k], xl, xr, g, 12, yl, yr, k);
      FillThird(msOn && dec.ms[k], xl, xr, g, 24, yl, yr, k);
      k := k + 1;
    }
  }

  /** `mpc_decoder_requantisierung`: every band up to the last one is filled, and the others stay as they are. A band's
      36 samples are scaled by its three scalefactors, twelve by each; of a mid and side band the left channel is the
      sum and the right one the difference. */
  method Requantise(g: Gain, msOn: bool, maxBand: nat, dec: FrameDecoder, yl: array2<real>, yr: array2<real>)
    requires dec.Valid() && maxBand < 32
    requires yl != yr && yl.Length0 == yr.Length0 == 36 && yl.Length1 == yr.Length1 == 32
    modifies yl, yr
    ensures forall n, k :: 0 <= n < 36 && 0 <= k <= maxBand ==> yl[n, k] == DecSample(g, msOn, dec.Mem(), false, n, k)
    ensures forall n, k :: 0 <= n < 36 && 0 <= k <= maxBand ==> yr[n, k] == DecSample(g, msOn, dec.Mem(), true, n, k)
    ensures forall n, k :: 0 <= n < 36 && 0 <= k <= maxBand ==>
              var a := if dec.resL[k] == 0 || n >= |dec.qL[k]| then 0.0
                       else if n < 12 then g.cc(dec.resL[k]) * g.scf(dec.scfL[k].a % 256) * (dec.qL[k][n] as real)
                       else if n < 24 then g.cc(dec.resL[k]) * g.scf(dec.scfL[k].b % 256) * (dec.qL[k][n] as real)
                       else g.cc(dec.resL[k]) * g.scf(dec.scfL[k].c % 256) * (dec.qL[k][n] as real);
              var b := if dec.resR[k] == 0 || n >= |dec.qR[k]| then 0.0
                       else if n < 12 then g.cc(dec.resR[k]) * g.scf(dec.scfR[k].a % 256) * (dec.qR[k][n] as real)
                       else if n < 24 then g.cc(dec.resR[k]) * g.scf(dec.scfR[k].b % 256) * (dec.qR[k][n] as real)
                       else g.cc(dec.resR[k]) * g.scf(dec.scfR[k].c % 256) * (dec.qR[k][n] as real);
              if msOn && dec.ms[k] then yl[n, k] == a + b && yr[n, k] == a - b else yl[n, k] == a && yr[n, k] == b
    ensures forall n, k :: 0 <= n < 36 && maxBand < k < 32 ==> yl[n, k] == old(yl[n, k]) && yr[n, k] == old(yr[n, k])
  {
    hide Mixed, Sample;
    FillBands(g, msOn, maxBand, dec, yl, yr);
    forall n, j | 0 <= n < 36 && 0 <= j <= maxBand {
      ScaledAndMixed(g, msOn && dec.ms[j], Band(dec.resL[j], dec.scfL[j], dec.qL[j]), Band(dec.resR[j], dec.scfR[j], dec.qR[j]), n);
    }
  }

  /** What is above the last band is never written. */
  ghost predicate Quiet(y: array2<real>, maxBand: nat)
    requires y.Length0 == 36 && y.Length1 == 32
    reads y
  {
    forall n, k :: 0 <= n < 36 && maxBand < k < 32 ==> y[n, k] == 0.0
  }

  /** After requantisation the array holds the samples of the frame that was decoded. */
  lemma RowsAre(g: Gain, msOn: bool, maxBand: nat, f: Frame, d: DecMem, right: bool, y: array2<real>)
    requires Recovers(msOn, maxBand, f, d) && Plain(f) && y.Length0 == 36 && y.Length1 == 32 && Quiet(y, maxBand)
    requires DecMemOk(d) && forall n, k :: 0 <= n < 36 && 0 <= k <= maxBand < 32 ==> y[n, k] == DecSample(g, msOn, d, right, n, k)
    ensures FrameOk(f) && Rows(y) == FrameSubbands(g, msOn, maxBand, f, right)
  {
    hide FrameSample, DecSample, Recovers, FrameOk, DecMemOk;
    PlainOk(f);
    BandLimit(msOn, maxBand, f, d);
    forall n, k | 0 <= n < 36 && 0 <= k < 32 ensures y[n, k] == FrameSample(g, msOn, maxBand, f, right, n, k) {
      if k <= maxBand { SameSample(g, msOn, maxBand, f, d, right, n, k); } else { AboveBand(g, msOn, maxBand, f, right, n, k); }
    }
    forall n | 0 <= n < 36 ensures Rows(y)[n] == FrameSubbands(g, msOn, maxBand, f, right)[n] {
      assert forall k :: 0 <= k < 32 ==> Rows(y)[n][k] == y[n, k];
    }
  }

  lemma PlainOk(f: Frame)
    requires Plain(f)
    ensures FrameOk(f)
  {}

  lemma BandLimit(msOn: bool, maxBand: nat, f: Frame, d: DecMem)
    requires Recovers(msOn, maxBand, f, d)
    ensures maxBand < 32 && DecMemOk(d)
  {
    hide FrameOk, DecMemOk, ChanRecovered, UsedBands;
  }

  lemma AboveBand(g: Gain, msOn: bool, maxBand: nat, f: Frame, right: bool, n: nat, k: nat)
    requires FrameOk(f) && k > maxBand
    ensures FrameSample(g, msOn, maxBand, f, right, n, k) == 0.0
  {}
}
