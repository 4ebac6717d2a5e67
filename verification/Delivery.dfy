/** What a player is given: skipping, delay, end trimming, and synthesis left out where it cannot be heard. */
module Delivery {
  import BitStrings
  import opened Demuxing
  import opened Sv8Frame
  import opened Sv8DecoderState
  import opened SeekIndexing
  import opened Seeking
  import opened Programmes
  import opened Requantising
  import opened Signals
  import opened Synthesis
  import Sv8Stream

  /** What came of one frame: so many samples, the end of the stream, or an error. */
  datatype Step = Given(count: nat) | Ended | Broken

  /** How a read ended. */
  datatype Status = Fine | Eof | Invalid

  ghost predicate AllPlain(fs: seq<Frame>) { forall i :: 0 <= i < |fs| ==> Plain(fs[i]) }

  /** The subband samples of one channel of every frame. */
  ghost function Pictures(g: Gain, msOn: bool, maxBand: nat, fs: seq<Frame>, right: bool): (ys: seq<Subbands>)
    ensures |ys| == |fs| && Slotted(ys)
  {
    seq(|fs|, i requires 0 <= i < |fs| =>
      if FrameOk(fs[i]) then FrameSubbands(g, msOn, maxBand, fs[i], right) else seq(36, n => []))
  }

  lemma PictureAt(g: Gain, msOn: bool, maxBand: nat, fs: seq<Frame>, right: bool, n: nat)
    requires n < |fs| && AllPlain(fs)
    ensures Plain(fs[n]) && FrameOk(fs[n]) && Pictures(g, msOn, maxBand, fs, right)[n] == FrameSubbands(g, msOn, maxBand, fs[n], right)
  {
    hide FrameOk, FrameSubbands;
    PlainOk(fs[n]);
  }

  class Player {
    const s: Seeker
    const f: Filter
    const g: Gain
    const right: bool       // which channel
    const yl: array2<real>
    const yr: array2<real>
    const v: array<real>
    var buffer: seq<real>   // the frame being delivered
    var filled: nat         // how much of it has gone
    var position: nat
    ghost var cursor: nat   // next frame

    /** The frames of the stream. */
    ghost function Frames(): (fs: seq<Subbands>)
      ensures Slotted(fs)
    {
      Pictures(g, s.msOn, s.maxBand, AllFrames(s.lay.runs), right)
    }

    /** The samples still to come, decoding from sample `p` of the signal on. */
    ghost function Coming(p: nat): seq<real>
    {
      DueFrom(Signal(f, Frames()), s.samples + SYNTH_DELAY, p)
    }

    /** What the stream holds for a listener. */
    ghost function Pcm(): seq<real>
    {
      Coming(SYNTH_DELAY + s.beg)
    }

    /** The length of that. */
    function Length(): nat { if s.beg <= s.samples then s.samples - s.beg else 0 }

    /** The stream is as long as its header says, and there is room to work in. */
    ghost predicate Sound()
      reads yl, yr
    {
      && Stocked(s) && AllPlain(AllFrames(s.lay.runs)) && v.Length == V_MEM + HISTORY && yl != yr
      && yl.Length0 == yr.Length0 == 36 && yl.Length1 == yr.Length1 == 32 && Quiet(yl, s.maxBand) && Quiet(yr, s.maxBand)
    }

    /** The state of everything below. */
    ghost predicate Ready()
      reads this, s, s.d, s.d.r, s.d.buffer, s.dec, yl, yr
    {
      Sound() && s.Usable() && s.dec.Valid() && filled <= |buffer| && position <= Length()
    }

    /** The place in the stream is a right one, and synthesis is in step with the full decoder there, or the next 480
        samples will be dropped. */
    ghost predicate InTune()
      reads this, s, s.d, s.d.r, s.dec, v
    {
      && (s.More() ==> s.Placed()) && s.decoded == FRAME * cursor && cursor <= |Frames()| && v.Length >= HISTORY
      && (v[..HISTORY] == Hist(f, Frames(), cursor) || s.skip >= 480)
    }

    ghost predicate Valid()
      reads this, s, s.d, s.d.r, s.d.buffer, s.dec, yl, yr, v
    {
      Ready() && (s.syncLost || InTune())
    }

    /** All that reading will still deliver. */
    ghost function Rest(): seq<real>
      reads this, s
    {
      (if filled <= |buffer| then buffer[filled..] else []) + (if s.syncLost then [] else Coming(s.decoded + s.skip))
    }

    /** Over a demuxer that stands in front of the first block. */
    constructor (s: Seeker, f: Filter, g: Gain, right: bool)
      requires Stocked(s) && AllPlain(AllFrames(s.lay.runs)) && s.Usable() && s.dec.Valid() && !s.syncLost && s.Placed()
      requires s.decoded == 0 && s.skip == SYNTH_DELAY + s.beg
      ensures this.s == s && this.f == f && this.g == g && this.right == right
      ensures fresh(v) && fresh(yl) && fresh(yr) && Valid() && position == 0 && Rest() == Pcm() && |Pcm()| == Length()
    {
      hide *;
      this.s, this.f, this.g, this.right := s, f, g, right;
      v := new real[V_MEM + HISTORY];
      yl := new real[36, 32]((i, j) => 0.0);
      yr := new real[36, 32]((i, j) => 0.0);
      buffer, filled, position, cursor := [], 0, 0, 0;
      new;
      FrameLength();
      QuietAtFirst(yl, s.maxBand);
      QuietAtFirst(yr, s.maxBand);
      StockedIs(s);
      ValidIs(this);
      PcmLength(this);
      NothingLeft(buffer, Coming(s.decoded + s.skip));
      RestIs(this);
    }

    /** Requantises and synthesises the frame that has been decoded, unless all of it and its delay will be dropped. */
    method Synthesise(ghost fr: Frame) returns (out: seq<real>)
      requires Sound() && s.dec.Valid() && Plain(fr) && Sv8Stream.Recovers(s.msOn, s.maxBand, fr, s.dec.Mem()) && FrameOk(fr)
      modifies v, yl, yr
      ensures Sound()
      ensures if s.skip < FRAME + SYNTH_DELAY
              then (var y := FrameSubbands(g, s.msOn, s.maxBand, fr, right);
                    out == Synthesis.Run(f, old(v[..HISTORY]), y) && v[..HISTORY] == After(f, old(v[..HISTORY]), y))
              else out == [] && v[..] == old(v[..])
    {
      hide *;
      RoomIs(this);
      out := [];
      if s.skip < FRAME + SYNTH_DELAY {
        StockedIs(s);
        Requantise(g, s.msOn, s.maxBand, s.dec, yl, yr);
        StillQuiet(this);
        RoomIs(this);
        MemOk(s.dec);
        if right {
          RowsAre(g, s.msOn, s.maxBand, fr, s.dec.Mem(), true, yr);
        } else {
          RowsAre(g, s.msOn, s.maxBand, fr, s.dec.Mem(), false, yl);
        }
        out := SynthFilter(f, v, Rows(if right then yr else yl));
        RoomIs(this);
      }
    }

    /** The samples of the frame that has been decoded, number `n`, when `left` are due from its beginning on. */
    method Present(left: nat, ghost n: nat) returns (r: Step, pcm: seq<real>)
      requires Ready() && !s.syncLost && s.Placed() && s.decoded == FRAME * (n + 1) && n == cursor
      requires 0 < left && left + FRAME * n == s.samples + SYNTH_DELAY && n < |AllFrames(s.lay.runs)|
      requires Sv8Stream.Recovers(s.msOn, s.maxBand, AllFrames(s.lay.runs)[n], s.dec.Mem())
      requires v.Length >= HISTORY && (v[..HISTORY] == Hist(f, Frames(), n) || s.skip >= 480)
      modifies this`cursor, s`skip, v, yl, yr
      ensures Valid() && !s.syncLost && cursor == n + 1
      ensures r == Given(|pcm|) && old(Coming(FRAME * n + s.skip)) == pcm + Coming(s.decoded + s.skip)
    {
      hide *;
      ValidIs(this);
      StockedIs(s);
      RoomIs(this);
      FramesIs(this);
      PcmLength(this);
      ghost var fr, h, skip := AllFrames(s.lay.runs)[n], v[..HISTORY], s.skip;
      PictureAt(g, s.msOn, s.maxBand, AllFrames(s.lay.runs), right, n);
      OneFrame(f, Frames(), n, h, skip, left);
      ComingIs(this, FRAME * n + skip);
      FrameLength();
      var out := Synthesise(fr);
      cursor := cursor + 1;
      var m := Min(FRAME, left);
      if m <= s.skip {
        pcm := [];
        s.SetSamplesToSkip(s.skip - m);
        NothingPlus(Coming(s.decoded + s.skip));
      } else {
        pcm := out[s.skip..m];
        s.SetSamplesToSkip(0);
      }
      ComingIs(this, s.decoded + s.skip);
      MoreIs(s);
      ValidIs(this);
      r := Given(|pcm|);
    }

    /** `mpc_demux_decode` and `mpc_decoder_decode_frame`. */
    method DecodeFrame() returns (r: Step, pcm: seq<real>)
      requires Valid() && s.d.r.Steady()
      modifies this`cursor, s, s.dec, s.d, s.d.buffer, s.d.r, v, yl, yr
      ensures Valid() && s.d.r.Steady() && s.syncLost == old(s.syncLost)
      ensures !r.Given? ==> pcm == [] && cursor == old(cursor)
      ensures !r.Given? && !s.syncLost ==> old(Coming(s.decoded + s.skip)) == [] == Coming(s.decoded + s.skip)
      ensures s.syncLost ==> r.Broken?
      ensures r.Given? ==>
                && !s.syncLost && r.count == |pcm| && cursor == old(cursor) + 1 <= |Frames()|
                && old(Coming(s.decoded + s.skip)) == pcm + Coming(s.decoded + s.skip)
    {
      hide *;
      ValidIs(this);
      RoomIs(this);
      StockedIs(s);
      MoreIs(s);
      PlayingIs(s);
      ghost var n := cursor;
      if !s.syncLost && s.More() { MoreThere(s); }
      NothingMore(this);
      var left := s.samples + SYNTH_DELAY - s.decoded;
      var o := s.DecodeFrame();
      MoreIs(s);
      PlayingIs(s);
      ValidIs(this);
      if !o.Done? {
        NothingMore(this);
        return if o.Over? then Ended else Broken, [];
      }
      FrameNumbered(n, s.decoded);
      FrameIs(s, n);
      PcmLength(this);
      r, pcm := Present(left, n);
      ValidIs(this);
    }

    /** The loop of `decode_frame`: frames swallowed whole by the skip are passed over. */
    method NextFrame() returns (r: Step)
      requires Valid() && filled == |buffer| && s.d.r.Steady()
      modifies this`cursor, this`buffer, this`filled, s, s.dec, s.d, s.d.buffer, s.d.r, v, yl, yr
      ensures Valid() && s.d.r.Steady() && s.syncLost == old(s.syncLost) && Rest() == old(Rest())
      ensures r.Given? ==> filled < |buffer|
      ensures !r.Given? ==> Rest() == [] && filled == |buffer|
      ensures s.syncLost ==> r.Broken?
    {
      hide *;
      ghost var due := Rest();
      while true
        invariant Valid() && s.d.r.Steady() && s.syncLost == old(s.syncLost)
        invariant filled == |buffer| && Rest() == due
        decreases |Frames()| - cursor
      {
        RestIs(this);
        NothingLeft(buffer, Coming(s.decoded + s.skip));
        NoneLeft(buffer);
        var pcm;
        r, pcm := DecodeFrame();
        RestIs(this);
        ValidIs(this);
        NothingLeft(buffer, Coming(s.decoded + s.skip));
        if !r.Given? { return; }
        if r.count != 0 {
          buffer, filled := pcm, 0;
          ValidIs(this);
          RestIs(this);
          WholeFrame(pcm);
          return;
        }
        NothingPlus(Coming(s.decoded + s.skip));
      }
    }

    /** Copies out of the current frame. */
    method Deliver(most: nat) returns (x: seq<real>)
      requires Valid() && filled < |buffer| && most > 0
      modifies this`filled
      ensures Valid() && 0 < |x| <= most && old(Rest()) == x + Rest()
    {
      hide *;
      ValidIs(this);
      RestIs(this);
      MinIs(|buffer| - filled, most);
      var n := Min(|buffer| - filled, most);
      TakeFrom(buffer, filled, n, if s.syncLost then [] else Coming(s.decoded + s.skip));
      x := buffer[filled..filled + n];
      filled := filled + n;
      RestIs(this);
      ValidIs(this);
    }

    /** What reading will deliver is what the stream holds from the position on; with the place lost, a part of that. */
    ghost predicate OnAir()
      reads this, s
    {
      position <= |Pcm()| && Rest() <= From(Pcm(), position) && (!s.syncLost ==> Rest() == From(Pcm(), position))
    }

    /** Frame by frame, until there are `max` samples or no more. */
    method Gather(max: nat) returns (pcm: seq<real>, last: Step)
      requires Valid() && s.d.r.Steady() && max > 0
      modifies this`cursor, this`buffer, this`filled, s, s.dec, s.d, s.d.buffer, s.d.r, v, yl, yr
      ensures Valid() && s.d.r.Steady() && s.syncLost == old(s.syncLost)
      ensures pcm + Rest() == old(Rest()) && |pcm| <= max && (|pcm| == max || Rest() == [])
      ensures pcm == [] ==> !last.Given? && (s.syncLost ==> last.Broken?)
    {
      hide *;
      ghost var all := Rest();
      pcm := [];
      last := Given(0);
      NothingPlus(all);
      while |pcm| < max && last.Given?
        invariant Valid() && s.d.r.Steady() && s.syncLost == old(s.syncLost)
        invariant |pcm| <= max && pcm + Rest() == all && (!last.Given? ==> Rest() == [])
        invariant s.syncLost && !last.Given? ==> last.Broken?
        decreases max - |pcm|, last.Given?
      {
        ValidIs(this);
        if filled >= |buffer| { last := NextFrame(); }
        if last.Given? {
          var x := Deliver(max - |pcm|);
          Plus3(pcm, x, Rest());
          pcm := pcm + x;
        }
      }
    }

    /** `musepack_decoder_read`: the next `max` samples, or what is left of them; an error only when there are none. */
    method Read(max: nat) returns (pcm: seq<real>, status: Status)
      requires Valid() && OnAir() && max > 0 && s.d.r.Steady()
      modifies this`cursor, this`buffer, this`filled, this`position, s, s.dec, s.d, s.d.buffer, s.d.r, v, yl, yr
      ensures Valid() && OnAir() && s.d.r.Steady() && s.syncLost == old(s.syncLost)
      ensures pcm == First(old(Rest()), max) && position == old(position) + |pcm|
      ensures status.Fine? <==> old(Rest()) != []
      ensures pcm == [] && s.syncLost ==> status.Invalid?
    {
      hide *;
      ghost var all := Rest();
      OnAirIs(this);
      var last;
      pcm, last := Gather(max);
      status := if pcm != [] then Fine else if last.Ended? then Eof else Invalid;
      ValidIs(this);
      PcmIs(this);
      ReadSoFar(all, pcm, Rest(), max);
      Onward(Pcm(), position, all, pcm, Rest());
      Landed(position + |pcm|);
    }

    /** The position moves on. */
    method Landed(at: nat)
      requires Valid() && at <= |Pcm()| && Rest() <= From(Pcm(), at) && (!s.syncLost ==> Rest() == From(Pcm(), at))
      modifies this`position
      ensures Valid() && OnAir() && position == at
    {
      hide *;
      ValidIs(this);
      PcmIs(this);
      RestIs(this);
      position := at;
      RestIs(this);
      ValidIs(this);
      OnAirIs(this);
    }

    /** `musepack_decoder_seek_sample`. A seek that succeeds without a late step leads to the sample asked for, or to the
        end; one that fails changes nothing, unless the source could not be put back, and then nothing more is decoded. */
    method Seek(sample: nat) returns (ok: bool, ghost late: bool, ghost k0: nat, ghost restored: bool)
      requires Ready()
      modifies this`cursor, this`buffer, this`filled, this`position, s, s.d, s.d.buffer, s.d.r
      ensures Ready() && (old(s.d.r.Steady()) ==> s.d.r.Steady())
      ensures !s.d.r.canSeek ==> !ok && !late
      ensures ok && s.right ==> Valid() && OnAir() && !s.syncLost && position == Min(sample, Length())
      ensures ok && old(s.d.r.Sincere()) && old(s.right) ==> (s.right <==> !late)
      ensures !ok && old(s.syncLost) ==> s.syncLost
      ensures !ok && !old(s.syncLost) ==>
                s.syncLost == !restored && s.Taken() == old(s.Taken()) && (restored ==> s.d.r.at == old(s.d.r.at))
      ensures !ok ==> position == old(position) && (restored && !old(s.syncLost) ==> Rest() == old(Rest()))
      ensures !ok && old(Valid()) ==> Valid() && (old(OnAir()) ==> OnAir())
      ensures !old(s.syncLost) && old(s.d.r.Steady()) && old(s.right) && s.d.r.canSeek && old(s.table) != []
              && BlockSamples(s.blockPwr) < U64_LIMIT ==>
                Arrives(Min(sample, Length()), ok, late, k0, old(s.table), old(s.d.r.at), old(s.d.bytesTotal), old(s.d.count))
    {
      hide *;
      ValidIs(this);
      StockedIs(s);
      MinIs(sample, Length());
      RestIs(this);
      if !s.d.r.canSeek {
        ok, late, k0, restored := false, false, 0, true;
        return;
      }
      var dest := Min(sample, Length());
      HomeThere(s, dest);
      OnAirIs(this);
      TakenIs(s);
      MoreIs(s);
      ok, late, k0, restored := s.SeekSample(dest);
      MoreIs(s);
      if old(s.table) != [] { ArrivesIs(this, dest, ok, late, k0, old(s.table), old(s.d.r.at), old(s.d.bytesTotal), old(s.d.count)); }
      ValidIs(this);
      TakenIs(s);
      if ok {
        PlayingIs(s);
        SettleAt(dest);
      } else {
        RestIs(this);
        OnAirIs(this);
        if !s.syncLost { PlayingIs(s); }
      }
    }

    /** The seek has gone well so far, as the scan predicts. */
    ghost predicate Arrives(dest: nat, ok: bool, late: bool, k0: nat, table: seq<nat>, at: nat, total: nat, count: nat)
    {
      && Sized(s.lay.bs) && s.beg <= s.samples && table != [] && k0 < |s.lay.bs|
      && table[s.Entry(s.Home(dest), |table|)] == 8 * At(s.lay.bs, s.lay.base, k0)
      && (late <==> LateScan(s.lay.bs, s.lay.base, k0, s.Home(dest), at, total, count, |s.d.r.stream|))
      && (!late ==> ok)
    }

    /** In front of the block of sample `dest`. */
    method SettleAt(dest: nat)
      requires Sound() && s.Usable() && s.dec.Valid() && !s.syncLost && dest <= Length()
      requires s.decoded == Samples(s.Home(dest), s.blockPwr) && s.skip == SYNTH_DELAY + s.Inset(dest)
      modifies this`cursor, this`buffer, this`filled, this`position
      ensures Ready() && position == dest && (s.Placed() ==> Valid() && OnAir())
    {
      hide *;
      ValidIs(this);
      StockedIs(s);
      HomeThere(s, dest);
      HomeIs(s, dest);
      RestIs(this);
      GoalIs(s, dest);
      InFrames(s.Home(dest), s.blockPwr);
      FrameLength();
      PcmLength(this);
      RestIs(this);
      ComingIs(this, SYNTH_DELAY + s.beg);
      ComingIs(this, SYNTH_DELAY + s.beg + dest);
      DueDrop(Signal(f, Frames()), s.samples + SYNTH_DELAY, SYNTH_DELAY + s.beg, dest);
      cursor := FrameNo(s.decoded);
      FrameNoIs(s.decoded, BitStrings.Shl(s.Home(dest), s.blockPwr));
      position, buffer, filled := dest, [], 0;
      NothingLeft(buffer, Coming(s.decoded + s.skip));
      FromIs(Pcm(), dest);
      RestIs(this);
      ValidIs(this);
      OnAirIs(this);
    }
  }

  /** A stream is played in any number of reads of any sizes, and the samples are always the same: those of a
      decoder that skips nothing, from the delay and the initial silence on, to the length of the stream. */
  method PlayAll(p: Player, sizes: seq<nat>) returns (pcm: seq<real>)
    requires p.Valid() && p.OnAir() && !p.s.syncLost && p.s.d.r.Steady() && forall i :: 0 <= i < |sizes| ==> sizes[i] > 0
    modifies p, p.s, p.s.dec, p.s.d, p.s.d.buffer, p.s.d.r, p.v, p.yl, p.yr
    ensures p.Valid() && p.OnAir() && !p.s.syncLost && p.s.d.r.Steady()
    ensures p.position == old(p.position) + |pcm| <= |p.Pcm()| && |p.Pcm()| == p.Length()
    ensures pcm == p.Pcm()[old(p.position)..p.position]
    ensures |sizes| >= p.Length() - old(p.position) ==> p.position == p.Length()
    ensures var all := Signal(p.f, p.Frames());
            && |all| == 1152 * |AllFrames(p.s.lay.runs)| && 481 + p.s.beg + p.position <= |all|
            && forall i :: 0 <= i < |pcm| ==> pcm[i] == all[481 + p.s.beg + old(p.position) + i]
  {
    hide *;
    pcm := [];
    var i := 0;
    ValidIs(p);
    PcmIs(p);
    OnAirIs(p);
    NoneRead(p.Pcm(), p.position);
    while i < |sizes|
      invariant 0 <= i <= |sizes| && p.Valid() && p.OnAir() && !p.s.syncLost && p.s.d.r.Steady()
      invariant p.position == old(p.position) + |pcm| <= |p.Pcm()| == p.Length()
      invariant pcm == p.Pcm()[old(p.position)..p.position]
      invariant p.position >= old(p.position) + i || p.position == p.Length()
    {
      ghost var at, rest := p.position, p.Rest();
      OnAirIs(p);
      FromIs(p.Pcm(), at);
      var x, status := p.Read(sizes[i]);
      FirstIs(rest, sizes[i]);
      Further(p.Pcm(), old(p.position), at, x);
      pcm := pcm + x;
      i := i + 1;
      OnAirIs(p);
    }
    ValidIs(p);
    PcmIs(p);
    PcmAt(p);
  }

  /** The first 481 samples of the signal and the initial silence are never heard. */
  lemma PcmAt(x: Player)
    requires Stocked(x.s)
    ensures var all := Signal(x.f, x.Frames());
            && |all| == 1152 * |AllFrames(x.s.lay.runs)| && |all| >= 481 + x.s.samples && x.s.beg <= x.s.samples
            && x.Pcm() == all[481 + x.s.beg..481 + x.s.samples]
  {
    hide *;
    FrameLength();
    PcmLength(x);
    RestIs(x);
    ComingIs(x, SYNTH_DELAY + x.s.beg);
    StockedIs(x.s);
    DueIs(Signal(x.f, x.Frames()), x.s.samples + SYNTH_DELAY, SYNTH_DELAY + x.s.beg);
  }

  lemma DueIs(s: seq<real>, end: nat, p: nat)
    requires p <= end <= |s|
    ensures DueFrom(s, end, p) == s[p..end]
  {}

  lemma NoneRead(s: seq<real>, p: nat)
    requires p <= |s|
    ensures s[p..p] == []
  {}

  lemma FirstIs(s: seq<real>, max: nat)
    ensures First(s, max) <= s && |First(s, max)| == if |s| <= max then |s| else max
  {}

  lemma MemOk(d: FrameDecoder)
    ensures d.Valid() <==> Sv8Frame.DecMemOk(d.Mem())
  {}

  twostate lemma StillQuiet(x: Player)
    requires old(x.Sound())
    requires forall n, k :: 0 <= n < 36 && x.s.maxBand < k < 32 ==> x.yl[n, k] == old(x.yl[n, k]) && x.yr[n, k] == old(x.yr[n, k])
    ensures x.Sound()
  {
    hide Stocked, AllPlain;
  }

  lemma QuietAtFirst(y: array2<real>, maxBand: nat)
    requires y.Length0 == 36 && y.Length1 == 32 && forall n, k :: 0 <= n < 36 && 0 <= k < 32 ==> y[n, k] == 0.0
    ensures Quiet(y, maxBand)
  {}

  lemma RoomIs(x: Player)
    ensures x.Sound() <==>
              && Stocked(x.s) && AllPlain(AllFrames(x.s.lay.runs)) && x.v.Length == V_MEM + HISTORY && x.yl != x.yr
              && x.yl.Length0 == x.yr.Length0 == 36 && x.yl.Length1 == x.yr.Length1 == 32
              && Quiet(x.yl, x.s.maxBand) && Quiet(x.yr, x.s.maxBand)
    ensures V_MEM == 2304 && HISTORY == 960
  {
    hide Stocked, AllPlain, AllFrames, Quiet;
  }

  lemma ValidIs(x: Player)
    ensures x.Ready() <==>
              && x.Sound() && x.s.Usable() && x.s.dec.Valid() && x.filled <= |x.buffer| && x.position <= x.Length()
    ensures x.InTune() <==>
              && (x.s.More() ==> x.s.Placed()) && x.s.decoded == FRAME * x.cursor && x.cursor <= |x.Frames()|
              && x.v.Length >= HISTORY && (x.v[..HISTORY] == Hist(x.f, x.Frames(), x.cursor) || x.s.skip >= 480)
    ensures x.Valid() <==> x.Ready() && (x.s.syncLost || x.InTune())
    ensures x.Sound() <==>
              && Stocked(x.s) && AllPlain(AllFrames(x.s.lay.runs)) && x.v.Length == V_MEM + HISTORY && x.yl != x.yr
              && x.yl.Length0 == x.yr.Length0 == 36 && x.yl.Length1 == x.yr.Length1 == 32
              && Quiet(x.yl, x.s.maxBand) && Quiet(x.yr, x.s.maxBand)
  {
    hide Seeker.Usable, Seeker.Placed, Seeker.More, FrameDecoder.Valid, Stocked, AllPlain, AllFrames, Quiet, Hist, Player.Frames;
  }

  lemma RestIs(x: Player)
    ensures x.filled <= |x.buffer| ==>
              x.Rest() == x.buffer[x.filled..] + (if x.s.syncLost then [] else x.Coming(x.s.decoded + x.s.skip))
    ensures x.Pcm() == x.Coming(SYNTH_DELAY + x.s.beg)
    ensures x.Length() == if x.s.beg <= x.s.samples then x.s.samples - x.s.beg else 0
  {
    hide Player.Coming;
  }

  lemma PcmLength(x: Player)
    requires Stocked(x.s)
    ensures |x.Pcm()| == x.Length() == x.s.samples - x.s.beg && |x.Frames()| == |AllFrames(x.s.lay.runs)|
    ensures |Signal(x.f, x.Frames())| == FRAME * |x.Frames()| >= x.s.samples + SYNTH_DELAY
  {
    hide *;
    StockedIs(x.s);
    FrameLength();
    FramesIs(x);
    SignalLength(x.f, x.Frames());
    RestIs(x);
    ComingIs(x, SYNTH_DELAY + x.s.beg);
    DueLength(Signal(x.f, x.Frames()), x.s.samples + SYNTH_DELAY, SYNTH_DELAY + x.s.beg);
  }

  lemma FramesIs(x: Player)
    ensures x.Frames() == Pictures(x.g, x.s.msOn, x.s.maxBand, AllFrames(x.s.lay.runs), x.right)
  {
    hide Pictures, AllFrames;
  }

  lemma ComingIs(x: Player, p: nat)
    ensures x.Coming(p) == DueFrom(Signal(x.f, x.Frames()), x.s.samples + SYNTH_DELAY, p)
  {
    hide DueFrom, Signal, Player.Frames;
  }

  lemma FrameNumbered(n: nat, decoded: nat)
    requires decoded == FRAME * n + FRAME
    ensures FrameNo(FRAME * n) == n && decoded == FRAME * (n + 1)
  {}

  /** When the length of the stream calls for no more, nothing is to come. */
  lemma NothingMore(x: Player)
    requires Stocked(x.s)
    ensures !x.s.More() ==> x.Coming(x.s.decoded + x.s.skip) == []
  {
    hide *;
    MoreIs(x.s);
    ComingIs(x, x.s.decoded + x.s.skip);
    PcmLength(x);
    DueLength(Signal(x.f, x.Frames()), x.s.samples + SYNTH_DELAY, x.s.decoded + x.s.skip);
  }

  lemma MinIs(a: nat, b: nat)
    ensures Min(a, b) == if a < b then a else b
  {}

  lemma NoneLeft(b: seq<real>)
    ensures b[|b|..] + [] == []
  {}

  lemma WholeFrame(b: seq<real>)
    ensures b[0..] == b
  {}

  lemma OnAirIs(x: Player)
    ensures x.OnAir() <==>
              && x.position <= |x.Pcm()| && x.Rest() <= From(x.Pcm(), x.position)
              && (!x.s.syncLost ==> x.Rest() == From(x.Pcm(), x.position))
  {
    hide From, Player.Pcm, Player.Rest;
  }

  lemma PcmIs(x: Player)
    requires x.Ready()
    ensures |x.Pcm()| == x.Length() && Stocked(x.s)
  {
    hide *;
    ValidIs(x);
    PcmLength(x);
  }

  lemma GoalIs(x: Seeker, dest: nat)
    requires x.beg <= x.samples && dest <= x.samples - x.beg
    ensures x.Goal(dest) == dest + x.beg
  {}

  lemma FromIs(s: seq<real>, p: nat)
    requires p <= |s|
    ensures From(s, p) == s[p..] && s[p..] <= s[p..]
  {}

  lemma FrameNoIs(decoded: nat, n: nat)
    requires decoded == FRAME * n
    ensures FrameNo(decoded) == n
  {}

  lemma ArrivesIs(x: Player, dest: nat, ok: bool, late: bool, k0: nat, table: seq<nat>, at: nat, total: nat, count: nat)
    requires Sized(x.s.lay.bs) && x.s.beg <= x.s.samples && table != []
    ensures x.Arrives(dest, ok, late, k0, table, at, total, count) <==>
              && k0 < |x.s.lay.bs| && table[x.s.Entry(x.s.Home(dest), |table|)] == 8 * At(x.s.lay.bs, x.s.lay.base, k0)
              && (late <==> LateScan(x.s.lay.bs, x.s.lay.base, k0, x.s.Home(dest), at, total, count, |x.s.d.r.stream|))
              && (!late ==> ok)
  {
    hide At, LateScan, Seeker.Entry, Seeker.Home, Sized;
  }
}
