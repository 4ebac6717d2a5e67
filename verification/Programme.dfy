/** The frames of a stream, and the places in it where the next one is to be found. */
module Programmes {
  import opened BitStrings
  import opened Sv8Header
  import opened Sv8Decoding
  import opened Sv8Frame
  import opened SeekIndexing
  import opened Seeking
  import Sv8Stream

  ghost function AllFrames(runs: seq<Run>): seq<Frame>
  {
    if runs == [] then [] else runs[0].frames + AllFrames(runs[1..])
  }

  /** Every run is full but the last. */
  ghost predicate Filled(runs: seq<Run>, full: nat)
  {
    && (forall i :: 0 <= i < |runs| - 1 ==> |runs[i].frames| == full)
    && forall i :: 0 <= i < |runs| ==> 1 <= |runs[i].frames| <= full
  }

  /** So a frame's number gives its run, and its place there. */
  lemma {:induction false} FrameIn(runs: seq<Run>, pwr: nat, q: nat, r: nat)
    requires Filled(runs, Pow2(pwr)) && q < |runs| && r < |runs[q].frames|
    ensures Shl(q, pwr) + r < |AllFrames(runs)| && AllFrames(runs)[Shl(q, pwr) + r] == runs[q].frames[r]
    decreases q
  {
    hide Shl, Pow2;
    if q == 0 {
      ShlNone(pwr);
    } else {
      FrameIn(runs[1..], pwr, q - 1, r);
      ShlNext(q - 1, pwr);
    }
  }

  lemma {:induction false} Total(runs: seq<Run>, pwr: nat)
    requires Filled(runs, Pow2(pwr)) && runs != []
    ensures |AllFrames(runs)| == Shl(|runs| - 1, pwr) + |runs[|runs| - 1].frames|
    decreases |runs|
  {
    hide Shl, Pow2;
    if |runs| == 1 {
      ShlNone(pwr);
      assert runs[1..] == [];
    } else {
      Total(runs[1..], pwr);
      ShlNext(|runs| - 2, pwr);
    }
  }

  lemma ShlNone(n: nat)
    ensures Shl(0, n) == 0
  {
    ShlMul(0, n);
  }

  lemma ShlNext(q: nat, n: nat)
    ensures Shl(q + 1, n) == Shl(q, n) + Pow2(n)
  {
    hide Shl, Pow2;
    ShlPlus(q, 1, n);
    ShlPow2(n);
  }

  lemma {:induction false} FindAudio(bs: seq<Blk>, n: nat, i: nat) returns (k: nat)
    requires n <= |bs| && i < Audios(bs, n)
    ensures k < n && Audio(bs[k]) && Audios(bs, k) == i
    decreases n
  {
    hide Audio;
    if Audios(bs, n - 1) == i { return n - 1; }
    k := FindAudio(bs, n - 1, i);
  }

  lemma CarriesFilled(b: Books, msOn: bool, maxBand: nat, full: nat, lay: Layout)
    requires Carries(b, msOn, maxBand, full, lay)
    ensures Filled(lay.runs, full) && |lay.runs| == Audios(lay.bs, |lay.bs|)
  {
    hide RunOk, Audios;
    forall i | 0 <= i < |lay.runs| ensures 1 <= |lay.runs[i].frames| <= full {
      var k := FindAudio(lay.bs, |lay.bs|, i);
      CarriesAt(b, msOn, maxBand, full, lay, k);
    }
  }

  /** Before the last audio block nothing stops the way to the next one. */
  ghost predicate Orderly(bs: seq<Blk>)
  {
    forall i :: 0 <= i < |bs| && Audios(bs, i) < Audios(bs, |bs|) ==> Audio(bs[i]) || Passable(bs[i])
  }

  lemma {:induction false} OrderlyOpen(bs: seq<Blk>, k: nat)
    requires Orderly(bs) && k <= |bs| && Audios(bs, k) < Audios(bs, |bs|)
    ensures k < |bs| && NextOpen(bs, k) < |bs| && Audio(bs[NextOpen(bs, k)])
    decreases |bs| - k
  {
    hide Audio, Passable;
    NextOpenIs(bs, k);
    if !Audio(bs[k]) {
      AudiosStep(bs, k);
      OrderlyOpen(bs, k + 1);
    }
  }

  /** The stream of a reader: well formed, and as long as its header says. */
  ghost predicate Stocked(x: Seeker)
  {
    && Sized(x.lay.bs) && Closed(x.lay.bs) && Orderly(x.lay.bs) && SymsOk(x.books) && x.maxBand < 32
    && Carries(x.books, x.msOn, x.maxBand, Pow2(x.blockPwr), x.lay)
    && 0 < x.samples && x.beg <= x.samples && x.samples + SYNTH_DELAY <= FRAME * |AllFrames(x.lay.runs)|
  }

  lemma StockedIs(x: Seeker)
    requires Stocked(x)
    ensures Sized(x.lay.bs) && Closed(x.lay.bs) && Orderly(x.lay.bs) && SymsOk(x.books) && x.maxBand < 32
    ensures Carries(x.books, x.msOn, x.maxBand, Pow2(x.blockPwr), x.lay) && Filled(x.lay.runs, Pow2(x.blockPwr))
    ensures |x.lay.runs| == Audios(x.lay.bs, |x.lay.bs|)
    ensures 0 < x.samples && x.beg <= x.samples && x.samples + SYNTH_DELAY <= FRAME * |AllFrames(x.lay.runs)|
  {
    hide Sized, Closed, Orderly, SymsOk, Carries, Audios, AllFrames, Filled, Pow2;
    CarriesFilled(x.books, x.msOn, x.maxBand, Pow2(x.blockPwr), x.lay);
  }

  /** Samples of the first `q` blocks, in frames. */
  lemma InFrames(q: nat, pwr: nat)
    ensures Samples(q, pwr) == FRAME * Shl(q, pwr)
  {
    hide Shl;
    ShlTimes(q, pwr);
  }

  /** With fewer samples than the frames hold, not all blocks are passed. */
  lemma BlocksLeft(runs: seq<Run>, pwr: nat, q: nat)
    requires Filled(runs, Pow2(pwr)) && Samples(q, pwr) < FRAME * |AllFrames(runs)|
    ensures q < |runs|
  {
    hide Shl, Pow2, Samples, Filled;
    InFrames(q, pwr);
    if runs != [] {
      Total(runs, pwr);
      LastRun(runs, Pow2(pwr));
      ShlNext(|runs| - 1, pwr);
      if q >= |runs| { ShlMono(|runs|, q, pwr); }
    } else {
      NoFrames(runs);
    }
  }

  lemma NoFrames(runs: seq<Run>)
    requires runs == []
    ensures |AllFrames(runs)| == 0
  {}

  lemma LastRun(runs: seq<Run>, full: nat)
    requires Filled(runs, full) && runs != []
    ensures 1 <= |runs[|runs| - 1].frames| <= full
  {}

  /** In a block, there is a next frame. */
  lemma FramesLeft(runs: seq<Run>, pwr: nat, q: nat, count: nat, decoded: nat, fs: seq<Frame>)
    requires Filled(runs, Pow2(pwr)) && Remaining(runs, q, Pow2(pwr), count, fs) && count >= 1
    requires decoded + FRAME * count == Samples(q, pwr) && decoded < FRAME * |AllFrames(runs)|
    ensures fs != []
  {
    hide Shl, Pow2, Samples, AllFrames;
    InFrames(q, pwr);
    ShlNext(q - 1, pwr);
    Total(runs, pwr);
  }

  /** Where the length of the stream calls for more, there is more. */
  lemma MoreThere(x: Seeker)
    requires Stocked(x) && x.Placed() && x.More()
    ensures x.d.blockFrames > 0 ==> x.fs != []
    ensures x.d.blockFrames == 0 ==>
              && x.k < |x.lay.bs| && NextOpen(x.lay.bs, x.k) < |x.lay.bs| && Audio(x.lay.bs[NextOpen(x.lay.bs, x.k)])
  {
    hide *;
    StockedIs(x);
    PlayingIs(x);
    MoreIs(x);
    BetweenIs(x);
    InsideIs(x);
    if x.d.blockFrames > 0 {
      FramesLeft(x.lay.runs, x.blockPwr, Audios(x.lay.bs, x.k), x.d.blockFrames, x.decoded, x.fs);
    } else {
      BlocksLeft(x.lay.runs, x.blockPwr, Audios(x.lay.bs, x.k));
      OrderlyOpen(x.lay.bs, x.k);
    }
  }

  /** Every sample of the stream lies in a block. */
  lemma HomeThere(x: Seeker, dest: nat)
    requires Stocked(x)
    ensures x.beg <= x.samples && Reachable(x.lay.bs, x.Home(dest)) && Samples(x.Home(dest), x.blockPwr) <= x.samples
  {
    hide *;
    StockedIs(x);
    HomeIs(x, dest);
    FrameLength();
    BlocksLeft(x.lay.runs, x.blockPwr, x.Home(dest));
    var k := FindAudio(x.lay.bs, |x.lay.bs|, x.Home(dest));
    ReachableAt(x.lay.bs, x.Home(dest), k);
  }

  lemma FrameLength()
    ensures FRAME == 1152 && SYNTH_DELAY == 481
  {}

  lemma ReachableAt(bs: seq<Blk>, fwd: nat, k: nat)
    requires k < |bs| && Audios(bs, k) == fwd
    ensures Reachable(bs, fwd)
  {}

  /** The frame that has been decoded, by its number. */
  lemma FrameIs(x: Seeker, n: nat)
    requires Stocked(x) && x.dec.Valid() && IsFrame(x.lay.runs, x.blockPwr, n, x.msOn, x.maxBand, x.dec.Mem())
    ensures n < |AllFrames(x.lay.runs)| && Sv8Stream.Recovers(x.msOn, x.maxBand, AllFrames(x.lay.runs)[n], x.dec.Mem())
  {
    hide *;
    StockedIs(x);
    IsFrameIs(x.lay.runs, x.blockPwr, n, x.msOn, x.maxBand, x.dec.Mem());
    Recompose(n, x.blockPwr);
    FrameIn(x.lay.runs, x.blockPwr, Shr(n, x.blockPwr), Low(n, x.blockPwr));
  }

  lemma IsFrameIs(runs: seq<Run>, pwr: nat, n: nat, msOn: bool, maxBand: nat, d: DecMem)
    requires IsFrame(runs, pwr, n, msOn, maxBand, d)
    ensures Shr(n, pwr) < |runs| && Low(n, pwr) < |runs[Shr(n, pwr)].frames|
    ensures Sv8Stream.Recovers(msOn, maxBand, runs[Shr(n, pwr)].frames[Low(n, pwr)], d)
  {
    hide Sv8Stream.Recovers, Shr, Low;
  }
}
