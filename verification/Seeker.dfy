/** Seeking by the index: a scan over block headers, all or nothing. */
module Seeking {
  import opened BitStrings
  import opened BitReading
  import opened Integers
  import opened Sizes
  import opened Codebooks
  import opened Demuxing
  import opened Sv8Header
  import opened Sv8Frame
  import opened Sv8Memory
  import opened Sv8Stream
  import opened Sv8Decoding
  import opened Sv8DecoderState
  import opened SeekIndexing
  import Sv8Blocks

  /** The frames of an audio block, and what the encoder remembered in front of them. */
  datatype Run = Run(mem: EncMem, frames: seq<Frame>)

  /** What is known of a stream: its blocks, and the frames in them. */
  datatype Layout = Layout(bs: seq<Blk>, base: nat, runs: seq<Run>)

  /** `MAX_FRAME_SIZE`, in bits. */
  const MAX_FRAME_BITS: nat := 8 * 4352

  /** No frame is longer than the decoder reads ahead. */
  ghost predicate Short(b: Books, msOn: bool, maxBand: nat, key: bool, m: EncMem, fs: seq<Frame>)
    requires BooksValid(b) && maxBand < 32
    decreases |fs|
  {
    EncMemOk(m) && FramesOk(fs)
    && (fs == []
        || (|FrameBits(b, msOn, maxBand, key, m, fs[0])| <= MAX_FRAME_BITS
            && Short(b, msOn, maxBand, false, EncNext(m, fs[0], key, maxBand), fs[1..])))
  }

  /** The bits of a block from frames `fs` on: those of the frames, and less than a byte more. */
  ghost predicate Left(s: Bits, b: Books, msOn: bool, maxBand: nat, key: bool, m: EncMem, fs: seq<Frame>)
  {
    && BooksValid(b) && maxBand < 32 && Short(b, msOn, maxBand, key, m, fs)
    && var r := RunBits(b, msOn, maxBand, key, m, fs); |r| <= |s| < |r| + 8 && s[..|r|] == r
  }

  /** The bits from `i` to `j` of some bytes. */
  ghost function Cut(s: seq<Byte>, i: int, j: int): Bits { if 0 <= i <= j <= 8 * |s| then BytesToBits(s)[i..j] else [] }

  lemma CutIs(s: seq<Byte>, i: int, j: int)
    requires 0 <= i <= j <= 8 * |s|
    ensures Cut(s, i, j) == BytesToBits(s)[i..j] && |Cut(s, i, j)| == j - i
  {
    hide BytesToBits;
  }

  /** Of the block before audio block `n`, the last `count` of `full` frames are to come, as far as it has them. */
  ghost predicate Remaining(runs: seq<Run>, n: nat, full: nat, count: nat, fs: seq<Frame>)
  {
    && 1 <= n <= |runs| && count <= full && full - count <= |runs[n - 1].frames| <= full
    && fs == runs[n - 1].frames[full - count..]
  }

  ghost predicate InStep(m: EncMem, d: DecMem) { EncMemOk(m) && DecMemOk(d) && Sync(m, d) }

  lemma RemainingNext(runs: seq<Run>, n: nat, full: nat, count: nat, fs: seq<Frame>)
    requires Remaining(runs, n, full, count, fs) && count >= 1 && fs != []
    ensures Remaining(runs, n, full, count - 1, fs[1..]) && (count == 1 ==> fs[1..] == [])
    ensures 1 <= n <= |runs| && 0 <= full - count < |runs[n - 1].frames| && runs[n - 1].frames[full - count] == fs[0]
  {}

  /** One frame of a block, and what is left behind it. */
  lemma LeftStep(s: Bits, b: Books, msOn: bool, maxBand: nat, key: bool, m: EncMem, fs: seq<Frame>)
    requires Left(s, b, msOn, maxBand, key, m, fs) && fs != []
    ensures BooksValid(b) && maxBand < 32 && EncMemOk(m) && FramesOk(fs) && FrameOk(fs[0]) && EncMemOk(EncNext(m, fs[0], key, maxBand))
    ensures var n := |FrameBits(b, msOn, maxBand, key, m, fs[0])|;
            && n <= |s| && n <= MAX_FRAME_BITS && s[..n] == FrameBits(b, msOn, maxBand, key, m, fs[0])
            && Left(s[n..], b, msOn, maxBand, false, EncNext(m, fs[0], key, maxBand), fs[1..])
  {
    hide BooksValid, EncMemOk, FrameOk, FrameBits, EncNext;
    var x, y := FrameBits(b, msOn, maxBand, key, m, fs[0]),
                RunBits(b, msOn, maxBand, false, EncNext(m, fs[0], key, maxBand), fs[1..]);
    assert RunBits(b, msOn, maxBand, key, m, fs) == x + y;
    TakeParts(s, x, y);
  }

  lemma TakeParts(s: Bits, x: Bits, y: Bits)
    requires |x| + |y| <= |s| && s[..|x + y|] == x + y
    ensures s[..|x|] == x && s[|x|..][..|y|] == y
  {
    assert s[..|x|] == s[..|x + y|][..|x|];
    assert s[|x|..][..|y|] == s[..|x + y|][|x|..];
  }

  lemma LeftNone(s: Bits, b: Books, msOn: bool, maxBand: nat, key: bool, m: EncMem)
    requires Left(s, b, msOn, maxBand, key, m, [])
    ensures |s| < 8
  {}

  /** What lies ahead begins with `s`, or with as much of it as a frame may take. */
  ghost predicate InSight(s: Bits, ahead: Bits, tail: Bits, w: nat)
  {
    (w <= |s| && w >= MAX_FRAME_BITS && ahead == s[..w] + tail) || (exists more :: ahead == (s + more) + tail)
  }

  lemma CutFrame(s: Bits, ahead: Bits, tail: Bits, w: nat, x: Bits) returns (rest: Bits)
    requires InSight(s, ahead, tail, w) && |x| <= |s| && |x| <= MAX_FRAME_BITS && s[..|x|] == x
    ensures ahead == x + rest && |rest| >= |tail|
  {
    if w <= |s| && w >= MAX_FRAME_BITS && ahead == s[..w] + tail {
      rest := s[..w][|x|..] + tail;
      assert s[..w][..|x|] == s[..|x|];
      CutFront(s[..w], x, tail);
    } else {
      var more :| ahead == (s + more) + tail;
      rest := (s + more)[|x|..] + tail;
      assert (s + more)[..|x|] == s[..|x|];
      CutFront(s + more, x, tail);
    }
  }

  /** The parser finds the frame that is there. */
  lemma FrameFound(s: Bits, ahead: Bits, tail: Bits, w: nat, b: Books, msOn: bool, maxBand: nat, key: bool, m: EncMem, d: DecMem, fs: seq<Frame>)
    requires Left(s, b, msOn, maxBand, key, m, fs) && fs != [] && DecMemOk(d) && (key || InStep(m, d))
    requires InSight(s, ahead, tail, w) && |tail| >= 24
    ensures BooksValid(b) && maxBand < 32 && EncMemOk(m) && FrameOk(fs[0]) && EncMemOk(EncNext(m, fs[0], key, maxBand))
    ensures var n := |FrameBits(b, msOn, maxBand, key, m, fs[0])|;
            var p := NextFrame(b, msOn, maxBand, key, d, ahead);
            && p.Got? && |p.rest| >= 24 && |ahead| - |p.rest| == n <= |s|
            && Recovers(msOn, maxBand, fs[0], p.value) && InStep(EncNext(m, fs[0], key, maxBand), p.value)
            && Left(s[n..], b, msOn, maxBand, false, EncNext(m, fs[0], key, maxBand), fs[1..])
  {
    LeftStep(s, b, msOn, maxBand, key, m, fs);
    hide *;
    var x := FrameBits(b, msOn, maxBand, key, m, fs[0]);
    InStepIs(m, d);
    var rest := CutFrame(s, ahead, tail, w, x);
    NextFrameIs(b, msOn, maxBand, key, d, ahead);
    FrameRoundTrip(b, msOn, maxBand, key, m, d, fs[0], rest);
    AfterRecovers(msOn, maxBand, key, d, fs[0]);
    FrameKeepsSync(msOn, maxBand, key, m, d, fs[0]);
    AfterOk(msOn, maxBand, fs[0], FrameAfter(msOn, maxBand, key, d, fs[0]));
    InStepIs(EncNext(m, fs[0], key, maxBand), FrameAfter(msOn, maxBand, key, d, fs[0]));
  }

  lemma CutFront(s: Bits, x: Bits, tail: Bits)
    requires |x| <= |s| && s[..|x|] == x
    ensures s + tail == x + (s[|x|..] + tail)
  {
    assert s == x + s[|x|..];
  }

  lemma InStepIs(m: EncMem, d: DecMem)
    ensures InStep(m, d) <==> EncMemOk(m) && DecMemOk(d) && Sync(m, d)
  {
    hide EncMemOk, DecMemOk, Sync;
  }

  lemma AfterOk(msOn: bool, maxBand: nat, f: Frame, d: DecMem)
    requires Recovers(msOn, maxBand, f, d)
    ensures DecMemOk(d)
  {
    hide FrameOk, ChanRecovered, UsedBands;
  }

  /** What the parser makes of the bits ahead. */
  ghost function NextFrame(b: Books, msOn: bool, maxBand: nat, key: bool, d: DecMem, s: Bits): Parsed<DecMem>
  {
    if BooksValid(b) && maxBand < 32 && DecMemOk(d) then FrameDec(b, msOn, maxBand, key, d, s) else NoData
  }

  lemma NextFrameIs(b: Books, msOn: bool, maxBand: nat, key: bool, d: DecMem, s: Bits)
    ensures BooksValid(b) && maxBand < 32 && DecMemOk(d) ==> NextFrame(b, msOn, maxBand, key, d, s) == FrameDec(b, msOn, maxBand, key, d, s)
    ensures NextFrame(b, msOn, maxBand, key, d, s).Got? ==> BooksValid(b) && maxBand < 32 && DecMemOk(d)
  {
    hide BooksValid, DecMemOk, FrameDec;
  }

  ghost predicate RunOk(b: Books, msOn: bool, maxBand: nat, full: nat, x: Blk, run: Run)
  {
    && BooksValid(b) && maxBand < 32 && 1 <= |run.frames| <= full && Short(b, msOn, maxBand, true, run.mem, run.frames)
    && x.data == Sv8Blocks.Payload(RunBits(b, msOn, maxBand, true, run.mem, run.frames))
  }

  /** The audio blocks hold the runs of frames, every one full but the last. */
  ghost predicate Carries(b: Books, msOn: bool, maxBand: nat, full: nat, lay: Layout)
  {
    && |lay.runs| == Audios(lay.bs, |lay.bs|)
    && (forall i :: 0 <= i < |lay.runs| - 1 ==> |lay.runs[i].frames| == full)
    && forall k :: 0 <= k < |lay.bs| && Audio(lay.bs[k]) ==>
         Audios(lay.bs, k) < |lay.runs| && RunOk(b, msOn, maxBand, full, lay.bs[k], lay.runs[Audios(lay.bs, k)])
  }

  const STREAM_LIMIT: nat := 0x1000_0000_0000_0000

  /** What came of an attempt to decode: a frame, the end of the stream, or an error. */
  datatype Outcome = Done | Over | Failed

  /** What a seek puts back when it fails. */
  datatype Snapshot = Snapshot(buffer: seq<Byte>, bytesTotal: nat, buff: int, count: nat, readError: bool, blockBits: int,
                               blockFrames: nat, table: seq<nat>, decoded: nat, skip: nat)

  class Seeker {
    const d: Demux
    const dec: FrameDecoder
    const books: Books
    const msOn: bool
    const maxBand: nat
    const blockPwr: nat
    const shift: nat      // seek_pwr - block_pwr
    const capacity: nat
    const samples: nat
    const beg: nat
    var table: seq<nat>
    var decoded: nat
    var skip: nat
    var syncLost: bool
    ghost const lay: Layout
    ghost var right: bool        // the index and the position are those of the stream
    ghost var k: nat             // blocks passed
    ghost var fs: seq<Frame>     // frames left in the open block
    ghost var em: EncMem         // the encoder in front of them

    /** What holds even after the reader has lost its place. */
    ghost predicate Sound()
      reads this, d, d.r
    {
      && d.r.Valid() && d.buffer.Length == 65536
      && Laid(d.r.stream, lay.bs, lay.base) && lay.base <= |d.r.stream| < STREAM_LIMIT
      && samples < STREAM_LIMIT && |table| <= capacity && Aligned(table)
      && (right ==> IndexOk(lay.bs, lay.base, shift, table))
    }

    ghost predicate Valid()
      reads this, d, d.r, d.buffer
    {
      Sound() && d.Valid()
    }

    /** The reader stands at a block boundary. */
    ghost predicate Between()
      reads this, d, d.r
      requires Sized(lay.bs)
    {
      && right && d.blockFrames == 0 && k < |lay.bs| && d.Border() <= d.bytesTotal
      && d.r.at - d.bytesTotal + d.Border() == At(lay.bs, lay.base, k)
      && decoded == Samples(Audios(lay.bs, k), blockPwr) && Covered(table, capacity, shift, Audios(lay.bs, k))
    }

    /** Over a demuxer that has read the header, with an empty index or the stored one. */
    constructor (d: Demux, dec: FrameDecoder, books: Books, msOn: bool, maxBand: nat, blockPwr: nat, shift: nat, capacity: nat,
                 samples: nat, beg: nat, table: seq<nat>, ghost lay: Layout)
      requires d.Valid() && Laid(d.r.stream, lay.bs, lay.base) && lay.base <= |d.r.stream| < STREAM_LIMIT && samples < STREAM_LIMIT
      requires |table| <= capacity && Aligned(table) && IndexOk(lay.bs, lay.base, shift, table)
      requires |lay.bs| > 0 && d.blockFrames == 0 && d.Unread() >= 0 && d.count == 8 && d.r.at - d.bytesTotal + d.buff == lay.base
      ensures this.d == d && this.dec == dec && this.books == books && this.msOn == msOn && this.maxBand == maxBand
      ensures this.blockPwr == blockPwr && this.shift == shift && this.capacity == capacity && this.samples == samples
      ensures this.beg == beg && this.table == table && this.lay == lay && decoded == 0 && skip == SYNTH_DELAY + beg && !syncLost
      ensures Valid() && Sized(lay.bs) && Between() && k == 0
    {
      this.d, this.dec, this.books, this.msOn, this.maxBand := d, dec, books, msOn, maxBand;
      this.blockPwr, this.shift, this.capacity, this.samples, this.beg := blockPwr, shift, capacity, samples, beg;
      this.table, this.lay, decoded, skip, syncLost := table, lay, 0, SYNTH_DELAY + beg, false;
      right, k, fs := true, 0, [];
      new;
      SamplesZero(blockPwr);
    }

    /** One step of a scan: to `fpos`, and over the header there. */
    method Reach(fpos: nat, ghost j: nat, ghost on: bool) returns (h: Option<(Block, nat)>, ghost late: bool)
      requires Valid() && fpos % 8 == 0 && Sized(lay.bs) && (on ==> j < |lay.bs| && fpos == 8 * At(lay.bs, lay.base, j))
      modifies d, d.buffer, d.r
      ensures Valid()
      ensures h.Some? ==>
                && d.count == 0 && 0 <= d.buff && d.blockFrames == 0 && h.value.1 >= 3 && fpos <= 8 * |d.r.stream| + 7
                && d.Here() == fpos + (if late then 8 else 0) + 8 * h.value.1
      ensures h.Some? ==> late == old(d.Late(fpos, 11)) && -1 <= d.buff - h.value.1 < d.bytesTotal && d.buff <= 65535
      ensures old(d.r.Sincere()) ==> d.r.Sincere()
      ensures old(d.r.Sincere()) && h.Some? && on && !late ==>
                && h.value == (Block(lay.bs[j].key, |lay.bs[j].data|), |HeaderOf(lay.bs[j])|)
                && d.Unread() >= 0
      ensures old(d.r.Steady()) ==> d.r.Steady()
      ensures old(d.r.Steady()) && on && d.r.canSeek ==>
                && late == old(d.Late(fpos, 11)) && (!late ==> h.Some?)
                && (d.r.at, d.bytesTotal) == Sought(old(d.r.at), old(d.bytesTotal), old(d.count), true, |d.r.stream|, fpos, 11)
    {
      hide *;
      Limits();
      SeekerIs(this);
      late := d.Late(fpos, 11);
      DemuxIs(d);
      InWindowIs(d, fpos);
      d.r.SteadySincere();
      ghost var sincere := d.r.Sincere();
      if on { AtWithin(d.r.stream, lay.bs, lay.base, j); }
      var ok := d.Seek(fpos, 11);
      DemuxIs(d);
      BufferIs(d);
      if !ok {
        SeekerIs(this);
        return None, late;
      }
      if on && !late && sincere {
        HeaderThere(d, lay, j);
      }
      h := d.GetBlock();
      DemuxIs(d);
      SeekerIs(this);
    }

    /** A header has been read at `fpos` or a byte behind it, after `i` audio blocks. */
    ghost predicate Reading(i: nat, fpos: nat, size: nat)
      reads this, d, d.r
    {
      && d.count == 0 && -1 <= d.buff - size < d.bytesTotal && d.buff <= 65535 && d.blockFrames == 0 && size >= 3 && fpos % 8 == 0
      && (d.Here() == fpos + 8 * size || d.Here() == fpos + 8 + 8 * size)
      && decoded == Samples(i, blockPwr) && fpos <= 8 * |d.r.stream| + 7
    }

    /** And it is the one of block `k`. */
    ghost predicate OnTrack(i: nat, fpos: nat, b: Block, size: nat)
      reads this, d, d.r
      requires Sized(lay.bs)
    {
      && k < |lay.bs| && fpos == 8 * At(lay.bs, lay.base, k) && Audios(lay.bs, k) == i && Covered(table, capacity, shift, i)
      && d.Here() == fpos + 8 * size && (b, size) == (Block(lay.bs[k].key, |lay.bs[k].data|), |HeaderOf(lay.bs[k])|)
    }

    /** An audio block passes: it is indexed if that is due, and counted. */
    method CountAudio(ghost i: nat, ghost fpos: nat, ghost b: Block, size: nat) returns (ok: bool)
      requires Valid() && Sized(lay.bs) && Reading(i, fpos, size)
      requires right ==> OnTrack(i, fpos, b, size)
      modifies this`table, this`decoded
      ensures Valid() && (ok ==> decoded == Samples(i + 1, blockPwr))
      ensures right ==> Covered(table, capacity, shift, i + 1)
      ensures ok <==> Samples(i + 1, blockPwr) < 0x1_0000_0000_0000_0000
    {
      hide *;
      Limits();
      SeekerIs(this);
      DemuxIs(d);
      ReadingIs(this, i, fpos, size);
      if right {
        OnTrackIs(this, i, fpos, b, size);
        DueIs(table, capacity, blockPwr, shift, i);
        CoveredNext(table, capacity, shift, i, fpos);
      }
      if Due(table, capacity, decoded, blockPwr + shift) {
        var pos := d.Pos();
        DueRoom(table, capacity, decoded, blockPwr + shift);
        AlignedMore(table, pos - 8 * size);
        if right { Extend(lay.bs, lay.base, shift, table, k); }
        table := table + [pos - 8 * size];
      }
      SeekerIs(this);
      SamplesMore(i, blockPwr);
      BlockIs(blockPwr);
      if decoded > U64_LIMIT - 1 - BlockSamples(blockPwr) { return false; }
      decoded := decoded + BlockSamples(blockPwr);
      SeekerIs(this);
      ok := true;
    }

    /** A step, and whether the scan is still on track after it. */
    method StepTo(fpos: nat, ghost j: nat) returns (h: Option<(Block, nat)>, ghost late: bool)
      requires Valid() && Sized(lay.bs) && fpos % 8 == 0
      requires right ==> j < |lay.bs| && fpos == 8 * At(lay.bs, lay.base, j)
      modifies this`right, this`k, d, d.buffer, d.r
      ensures Valid() && (right ==> old(right) && k == j < |lay.bs| && !late)
      ensures h.Some? ==>
                && d.count == 0 && -1 <= d.buff - h.value.1 < d.bytesTotal && d.buff <= 65535 && d.blockFrames == 0
                && h.value.1 >= 3 && fpos <= 8 * |d.r.stream| + 7
                && (d.Here() == fpos + 8 * h.value.1 || d.Here() == fpos + 8 + 8 * h.value.1)
                && (right ==> d.Here() == fpos + 8 * h.value.1
                              && h.value == (Block(lay.bs[j].key, |lay.bs[j].data|), |HeaderOf(lay.bs[j])|))
      ensures old(d.r.Sincere()) ==> d.r.Sincere() && (old(right) && !late && h.Some? ==> right)
      ensures old(d.r.Steady()) ==> d.r.Steady()
      ensures old(d.r.Steady()) && old(right) && d.r.canSeek ==>
                && late == IsLate(old(d.r.at), old(d.bytesTotal), old(d.count), true, fpos, 11)
                && (!late ==> h.Some?)
                && (d.r.at, d.bytesTotal) == Sought(old(d.r.at), old(d.bytesTotal), old(d.count), true, |d.r.stream|, fpos, 11)
    {
      hide *;
      d.r.SteadySincere();
      LateIs(d, fpos);
      h, late := Reach(fpos, j, right);
      SeekerIs(this);
      k := j;
      if right { SizedAt(lay.bs, j); }
      right := right && !late && h.Some? && h.value == (Block(lay.bs[j].key, |lay.bs[j].data|), |HeaderOf(lay.bs[j])|);
      SeekerIs(this);
    }

    /** One block of a scan passes; what is left is to go to the next. */
    method PassBlock(i: nat, fpos: nat, b: Block, size: nat, ghost fwd: nat) returns (ok: bool, next: nat, ahead: nat)
      requires Valid() && Sized(lay.bs) && Reading(i, fpos, size) && i < fwd && Samples(fwd, blockPwr) < STREAM_LIMIT
      requires right ==> OnTrack(i, fpos, b, size)
      modifies this`table, this`decoded
      ensures Valid() && (ok ==> next == (if b.key == Sv8Blocks.AP then i + 1 else i) && decoded == Samples(next, blockPwr))
      ensures ok ==> ahead == fpos + 8 * (b.size + size)
      ensures ok && right ==>
                && Covered(table, capacity, shift, next) && k < |lay.bs| && Audios(lay.bs, k + 1) == next
                && ahead == 8 * At(lay.bs, lay.base, k + 1)
      ensures ok <==> fpos + 8 * (b.size + size) < 0x1_0000_0000_0000_0000
      ensures right ==> ok
    {
      hide *;
      Limits();
      ReadingIs(this, i, fpos, size);
      next, ahead := i, fpos + 8 * (b.size + size);
      if right {
        OnTrackIs(this, i, fpos, b, size);
        AtStep(lay.bs, lay.base, k);
        AudiosStep(lay.bs, k);
        AudioIs(lay.bs[k]);
        SizedAt(lay.bs, k);
        SeekerIs(this);
        AtWithin(d.r.stream, lay.bs, lay.base, k);
        AtWithin(d.r.stream, lay.bs, lay.base, k + 1);
      }
      if b.key == Sv8Blocks.AP {
        SamplesMono(i + 1, fwd, blockPwr);
        ok := CountAudio(i, fpos, b, size);
        if !ok { return; }
        next := i + 1;
      }
      ok := b.size <= (U64_LIMIT - 1) / 8 - size && fpos <= U64_LIMIT - 1 - 8 * (b.size + size);
    }

    /** How a scan that is under way relates to what it was asked to do. */
    ghost predicate Wanted(fwd: nat, i: nat, wanted: bool, late: bool)
      reads this, d, d.r
      requires Sized(lay.bs)
    {
      && (late ==> wanted) && (!right && !late ==> !wanted)
      && (right ==>
            && k < |lay.bs|
            && (wanted <==> i < fwd && k + 1 < |lay.bs|
                            && LateScan(lay.bs, lay.base, k + 1, fwd, d.r.at, d.bytesTotal, 0, |d.r.stream|)))
    }

    /** Between two steps: what has been read, and how sure that is. `steady` says that nothing fails, `sincere` that
        nothing is withheld. */
    ghost predicate Scanning(i: nat, fpos: nat, h: (Block, nat), fwd: nat, wanted: bool, late: bool, steady: bool, sincere: bool)
      reads this, d, d.r, d.buffer
    {
      && Valid() && Sized(lay.bs) && Reading(i, fpos, h.1) && i <= fwd && Samples(fwd, blockPwr) < STREAM_LIMIT
      && (right ==> OnTrack(i, fpos, h.0, h.1) && !late)
      && (sincere ==> d.r.Sincere() && (Reachable(lay.bs, fwd) && !late ==> right))
      && (steady ==> sincere && d.r.Steady() && d.r.canSeek && Wanted(fwd, i, wanted, late))
    }

    /** The scan has failed: if nothing could fail, a step has landed late. */
    ghost predicate GaveUp(fwd: nat, wanted: bool, late: bool, steady: bool, sincere: bool)
      reads this, d, d.r, d.buffer
    {
      && Valid() && (right ==> !late) && (sincere ==> d.r.Sincere())
      && (steady ==> d.r.Steady() && late == wanted && (Reachable(lay.bs, fwd) ==> late))
    }

    /** From one block to the next. */
    method Advance(i: nat, fpos: nat, b: Block, size: nat, ghost fwd: nat, ghost wanted: bool, ghost was: bool,
                   ghost steady: bool, ghost sincere: bool)
      returns (h: Option<(Block, nat)>, next: nat, ahead: nat, ghost late: bool)
      requires Scanning(i, fpos, (b, size), fwd, wanted, was, steady, sincere) && i < fwd
      modifies this`table, this`decoded, this`right, this`k, d, d.buffer, d.r
      ensures old(d.r.Steady()) ==> d.r.Steady()
      ensures h.Some? ==> Scanning(next, ahead, h.value, fwd, wanted, late, steady, sincere) && i <= next <= fwd && ahead > fpos
      ensures h.None? ==> GaveUp(fwd, wanted, late, steady, sincere)
      ensures right ==> old(right)
    {
      hide *;
      ScanningIs(this, i, fpos, (b, size), fwd, wanted, was, steady, sincere);
      ReadingIs(this, i, fpos, size);
      WantedIs(this, fwd, i, wanted, was);
      late := was;
      if right {
        OnTrackIs(this, i, fpos, b, size);
        if Reachable(lay.bs, fwd) { NotBeyond(lay.bs, k, fwd); }
        if k + 1 < |lay.bs| { LateScanIs(lay.bs, lay.base, k + 1, fwd, d.r.at, d.bytesTotal, 0, |d.r.stream|); }
      }
      var passed;
      passed, next, ahead := PassBlock(i, fpos, b, size, fwd);
      if !passed {
        GaveUpIs(this, fwd, wanted, late, steady, sincere);
        return None, next, ahead, late;
      }
      SeekerIs(this);
      right := right && k + 1 < |lay.bs|;
      SeekerIs(this);
      ghost var on := right;
      ghost var l;
      h, l := StepTo(ahead, k + 1);
      late := late || (on && l);
      if h.None? {
        GaveUpIs(this, fwd, wanted, late, steady, sincere);
        return;
      }
      ReadingIs(this, next, ahead, h.value.1);
      OnTrackIs(this, next, ahead, h.value.0, h.value.1);
      WantedIs(this, fwd, next, wanted, late);
      ScanningIs(this, next, ahead, h.value, fwd, wanted, late, steady, sincere);
    }

    /** The first block of a scan. */
    method Begin(start: nat, first: nat, ghost fwd: nat, ghost k0: nat, ghost wanted: bool, ghost steady: bool, ghost sincere: bool)
      returns (h: Option<(Block, nat)>, ghost late: bool)
      requires Valid() && Sized(lay.bs) && start % 8 == 0 && first <= fwd && Samples(fwd, blockPwr) < STREAM_LIMIT
      requires right ==> k0 < |lay.bs| && start == 8 * At(lay.bs, lay.base, k0) && Audios(lay.bs, k0) == first
                         && Covered(table, capacity, shift, first)
      requires sincere ==> right && d.r.Sincere()
      requires steady ==>
                 && sincere && d.r.Steady() && d.r.canSeek
                 && wanted == LateScan(lay.bs, lay.base, k0, fwd, d.r.at, d.bytesTotal, d.count, |d.r.stream|)
      modifies this`decoded, this`right, this`k, d, d.buffer, d.r
      ensures old(d.r.Steady()) ==> d.r.Steady()
      ensures h.Some? ==> Scanning(first, start, h.value, fwd, wanted, late, steady, sincere)
      ensures h.None? ==> GaveUp(fwd, wanted, late, steady, sincere)
      ensures right ==> old(right)
    {
      hide *;
      if right { LateScanIs(lay.bs, lay.base, k0, fwd, d.r.at, d.bytesTotal, d.count, |d.r.stream|); }
      ghost var on := right;
      h, late := StepTo(start, k0);
      late := late && on;
      if h.None? {
        GaveUpIs(this, fwd, wanted, late, steady, sincere);
        return;
      }
      SeekerIs(this);
      decoded := Samples(first, blockPwr);
      SeekerIs(this);
      ReadingIs(this, first, start, h.value.1);
      OnTrackIs(this, first, start, h.value.0, h.value.1);
      WantedIs(this, fwd, first, wanted, late);
      ScanningIs(this, first, start, h.value, fwd, wanted, late, steady, sincere);
    }

    /** The block scan of a seek, from the entry at `start`, which has `first` audio blocks before it, to the first
        place with `fwd` before it. */
    method Scan(start: nat, first: nat, fwd: nat, ghost k0: nat) returns (ok: bool, ghost late: bool)
      requires Valid() && Sized(lay.bs) && start % 8 == 0 && first <= fwd && Samples(fwd, blockPwr) < STREAM_LIMIT
      requires right ==> k0 < |lay.bs| && start == 8 * At(lay.bs, lay.base, k0) && Audios(lay.bs, k0) == first
                         && Covered(table, capacity, shift, first)
      modifies this`table, this`decoded, this`right, this`k, d, d.buffer, d.r
      ensures old(d.r.Steady()) ==> d.r.Steady()
      ensures Valid() && (right ==> old(right) && !late)
      ensures ok ==> d.blockFrames == 0 && decoded == Samples(fwd, blockPwr)
      ensures ok && right ==> Between() && Audios(lay.bs, k) == fwd
      ensures old(d.r.Sincere()) && old(right) ==> d.r.Sincere() && (Reachable(lay.bs, fwd) && ok && !late ==> right)
      ensures old(d.r.Steady()) && old(right) && d.r.canSeek ==>
                && d.r.Steady()
                && (late <==> LateScan(lay.bs, lay.base, k0, fwd, old(d.r.at), old(d.bytesTotal), old(d.count), |d.r.stream|))
                && (Reachable(lay.bs, fwd) && !late ==> ok)
    {
      hide *;
      d.r.SteadySincere();
      ghost var sincere, steady := d.r.Sincere() && right, d.r.Steady() && right && d.r.canSeek;
      ghost var wanted := right && LateScan(lay.bs, lay.base, k0, fwd, d.r.at, d.bytesTotal, d.count, |d.r.stream|);
      var h;
      h, late := Begin(start, first, fwd, k0, wanted, steady, sincere);
      var i: nat, fpos: nat := first, start;
      while h.Some? && i < fwd
        invariant (right ==> old(right)) && (old(d.r.Steady()) ==> d.r.Steady())
        invariant h.Some? ==> Scanning(i, fpos, h.value, fwd, wanted, late, steady, sincere)
        invariant h.None? ==> GaveUp(fwd, wanted, late, steady, sincere)
        decreases h.Some?, 8 * |d.r.stream| + 8 - fpos
      {
        ScanningIs(this, i, fpos, h.value, fwd, wanted, late, steady, sincere);
        ReadingIs(this, i, fpos, h.value.1);
        h, i, fpos, late := Advance(i, fpos, h.value.0, h.value.1, fwd, wanted, late, steady, sincere);
        if h.Some? {
          ScanningIs(this, i, fpos, h.value, fwd, wanted, late, steady, sincere);
          ReadingIs(this, i, fpos, h.value.1);
        }
      }
      if h.None? {
        GaveUpIs(this, fwd, wanted, late, steady, sincere);
        return false, late;
      }
      ScanningIs(this, i, fpos, h.value, fwd, wanted, late, steady, sincere);
      ReadingIs(this, i, fpos, h.value.1);
      WantedIs(this, fwd, i, wanted, late);
      Rewind(i, fpos, h.value.0, h.value.1);
      ok := true;
    }

    /** Back in front of the header. */
    method Rewind(ghost i: nat, ghost fpos: nat, ghost b: Block, size: nat)
      requires Valid() && Sized(lay.bs) && Reading(i, fpos, size) && (right ==> OnTrack(i, fpos, b, size))
      modifies d`buff
      ensures Valid() && d.blockFrames == 0 && decoded == Samples(i, blockPwr)
      ensures right ==> Between() && Audios(lay.bs, k) == i
    {
      hide Laid, IndexOk, Aligned, At, Audios, Samples, Covered, HeaderOf;
      d.buff := d.buff - size;
    }

    /** The sample a seek goes to, in the stream with its initial silence. */
    function Goal(dest: nat): (n: nat)
      requires beg <= samples
      ensures n <= samples
    {
      if dest > samples - beg then samples else dest + beg
    }

    /** The block it lies in. */
    function Home(dest: nat): nat
      requires beg <= samples
    {
      Quotient(Goal(dest), BlockSamples(blockPwr))
    }

    /** And how far into it. */
    function Inset(dest: nat): nat
      requires beg <= samples
    {
      Remainder(Goal(dest), BlockSamples(blockPwr))
    }

    /** The entry a seek starts from, of `n`. */
    function Entry(fwd: nat, n: nat): (i: nat)
      requires n > 0
      ensures i < n
    {
      if Shr(fwd, shift) >= n then n - 1 else Shr(fwd, shift)
    }

    /** `mpc_demux_seek_sample_inner`. With a source that withholds nothing, a seek that succeeds without a late step
        stands where it should, and the index is still right; with one that does not fail, lateness is decided by where
        the window stood before, and nothing else makes a seek fail. */
    method SeekInner(dest: nat) returns (ok: bool, ghost late: bool, ghost k0: nat)
      requires Valid() && Sized(lay.bs)
      modifies this`table, this`decoded, this`skip, this`right, this`k, d, d.buffer, d.r
      ensures old(d.r.Steady()) ==> d.r.Steady()
      ensures Valid() && (right ==> old(right) && !late)
      ensures ok ==> d.r.canSeek && old(table) != [] && beg <= samples
      ensures ok ==> d.blockFrames == 0 && decoded == Samples(Home(dest), blockPwr)
                     && skip == SYNTH_DELAY + Inset(dest)
      ensures ok && right ==> Between() && Audios(lay.bs, k) == Home(dest)
      ensures old(d.r.Sincere()) && old(right) && beg <= samples ==>
                (Reachable(lay.bs, Home(dest)) && ok && !late ==> right)
      ensures old(d.r.Steady()) && old(right) && d.r.canSeek && old(table) != [] && beg <= samples && BlockSamples(blockPwr) < U64_LIMIT ==>
                && k0 < |lay.bs| && old(table)[Entry(Home(dest), |old(table)|)] == 8 * At(lay.bs, lay.base, k0)
                && (late <==> LateScan(lay.bs, lay.base, k0, Home(dest), old(d.r.at), old(d.bytesTotal),
                                       old(d.count), |d.r.stream|))
                && (Reachable(lay.bs, Home(dest)) && !late ==> ok)
    {
      hide *;
      ok, late, k0 := false, false, 0;
      if !d.r.canSeek || table == [] || beg > samples || BlockSamples(blockPwr) >= U64_LIMIT { return; }
      var fwd := Home(dest);
      var i := Entry(fwd, |table|);
      EntryIs(this, fwd, |table|);
      HomeIs(this, dest);
      SeekerIs(this);
      AlignedAt(table, i);
      NotPast(fwd, i, shift);
      if right {
        k0 := EntryLeads(lay.bs, lay.base, shift, table, i);
        CoveredAt(table, capacity, shift, i);
      }
      ok, late := Scan(table[i], Shl(i, shift), fwd, k0);
      if ok {
        SeekerIs(this);
        BetweenIs(this);
        skip := SYNTH_DELAY + Inset(dest);
        SeekerIs(this);
        BetweenIs(this);
      }
    }

    /** All that the demuxer and its decoder remember, but the decoder's arrays, which seeking does not touch. */
    function Taken(): Snapshot
      reads this, d, d.buffer
    {
      Snapshot(d.buffer[..], d.bytesTotal, d.buff, d.count, d.readError, d.blockBits, d.blockFrames, table, decoded, skip)
    }

    /** Puts back what was taken, and the source where it was, if it goes there. */
    method PutBack(s: Snapshot, readerPosition: nat) returns (back: bool)
      requires d.r.Valid() && d.buffer.Length == 65536 == |s.buffer| && readerPosition <= |d.r.stream|
      modifies this`table, this`decoded, this`skip, d, d.buffer, d.r`at, d.r`seekScript
      ensures Taken() == s && d.r.Valid() && (back ==> d.r.at == readerPosition)
      ensures old(d.r.Sincere()) ==> d.r.Sincere()
      ensures old(d.r.Steady()) ==> d.r.Steady() && back
    {
      hide Reader.Sincere, Reader.Steady;
      back := d.r.Seek(readerPosition);
      CopyIn(d.buffer, 0, s.buffer);
      assert d.buffer[..] == d.buffer[0..|s.buffer|];
      d.bytesTotal, d.buff, d.count, d.readError := s.bytesTotal, s.buff, s.count, s.readError;
      d.blockBits, d.blockFrames := s.blockBits, s.blockFrames;
      table, decoded, skip := s.table, s.decoded, s.skip;
    }

    /** The end of a seek that has failed. */
    method GiveUp(s: Snapshot, readerPosition: nat, ghost place: (bool, nat)) returns (back: bool)
      requires Sound() && |s.buffer| == 65536 && readerPosition <= |d.r.stream|
      requires |s.table| <= capacity && Aligned(s.table) && (place.0 ==> IndexOk(lay.bs, lay.base, shift, s.table))
      modifies this`table, this`decoded, this`skip, this`right, this`k, this`syncLost, d, d.buffer, d.r`at, d.r`seekScript
      ensures Sound() && Taken() == s && (right, k) == place && (back ==> d.r.at == readerPosition)
      ensures syncLost == (old(syncLost) || !back)
      ensures old(d.r.Sincere()) ==> d.r.Sincere()
      ensures old(d.r.Steady()) ==> d.r.Steady() && back
    {
      hide *;
      SoundIs(this);
      back := PutBack(s, readerPosition);
      TakenIs(this);
      right, k := place.0, place.1;
      if !back { syncLost := true; }
      TakenIs(this);
      SoundIs(this);
    }

    /** The class invariant. */
    ghost predicate Usable()
      reads this, d, d.r, d.buffer
    {
      Sound() && Sized(lay.bs) && (if syncLost then d.r.canSeek else d.Valid())
    }

    /** `mpc_demux_seek_sample`: all or nothing. A seek that fails leaves everything as it was, the window, its place in
        the source, the block that is being read, the index and what the decoder remembers; if the source cannot be put
        back, the place is lost, and found again only by a seek that succeeds. */
    method SeekSample(dest: nat) returns (ok: bool, ghost late: bool, ghost k0: nat, ghost restored: bool)
      requires Usable()
      modifies this, d, d.buffer, d.r
      ensures old(d.r.Steady()) ==> d.r.Steady()
      ensures !d.r.canSeek ==> !ok && !late
      ensures Usable() && (right ==> old(right)) && fs == old(fs) && em == old(em)
      ensures ok ==> !syncLost && (right ==> !late) && d.r.canSeek && beg <= samples
      ensures ok ==> d.blockFrames == 0 && decoded == Samples(Home(dest), blockPwr) && skip == SYNTH_DELAY + Inset(dest)
      ensures ok && right ==> Between() && Audios(lay.bs, k) == Home(dest)
      ensures !ok && !old(syncLost) ==> Taken() == old(Taken()) && right == old(right) && k == old(k)
      ensures !ok && !old(syncLost) ==> syncLost == !restored && (restored ==> d.r.at == old(d.r.at))
      ensures !ok && old(syncLost) ==> syncLost && d.blockFrames == 0 && table == old(table) && decoded == old(decoded)
      ensures !ok && !old(syncLost) && restored && old(Placed()) ==> Placed()
      ensures old(d.r.Sincere()) && old(right) && beg <= samples ==> (Reachable(lay.bs, Home(dest)) && ok && !late ==> right)
      ensures !old(syncLost) && old(d.r.Steady()) && old(right) && d.r.canSeek && old(table) != [] && beg <= samples
              && BlockSamples(blockPwr) < U64_LIMIT ==>
                && k0 < |lay.bs| && old(table)[Entry(Home(dest), |old(table)|)] == 8 * At(lay.bs, lay.base, k0)
                && (late <==> LateScan(lay.bs, lay.base, k0, Home(dest), old(d.r.at), old(d.bytesTotal), old(d.count), |d.r.stream|))
                && (Reachable(lay.bs, Home(dest)) && !late ==> ok)
    {
      hide *;
      ok, late, k0, restored := false, false, 0, true;
      UsableIs(this);
      if !d.r.canSeek { return; }
      SoundIs(this);
      var readerPosition := d.r.at;
      if syncLost { d.Clear(); }
      SoundIs(this);
      var snapshot := Taken();
      TakenIs(this);
      ghost var place := (right, k);
      ok, late, k0 := SeekInner(dest);
      SoundIs(this);
      if ok {
        BetweenIs(this);
        syncLost := false;
        SoundIs(this);
        UsableIs(this);
        BetweenIs(this);
        return;
      }
      var back := GiveUp(snapshot, readerPosition, place);
      restored := back;
      TakenIs(this);
      SoundIs(this);
      if back && !old(syncLost) {
        SameWindow(d);
        if old(Placed()) { SamePlace(this); }
      }
      UsableIs(this);
    }

    /** `mpc_demux_set_samples_to_skip`. */
    method SetSamplesToSkip(n: nat)
      modifies this`skip
      ensures skip == n && (old(Usable()) ==> Usable()) && (old(Placed()) ==> Placed())
    {
      hide Laid, IndexOk, Aligned, Sized, Closed, SymsOk, Carries, At, Samples, Audios, Covered, Remaining, Left, InStep, Cut, Pow2, Audio;
      hide Demux.Valid, FrameDecoder.Valid, FrameDecoder.Mem;
      skip := n;
    }

    // ----- decoding -----

    /** On the way to the next audio block, in front of block `j`'s content. */
    ghost predicate AtContent(j: nat, b: Block)
      reads this, d, d.r
      requires Sized(lay.bs)
    {
      && j < |lay.bs| && d.count == 0 && d.buff >= 0 && d.Unread() >= 0 && b == Block(lay.bs[j].key, |lay.bs[j].data|)
      && d.Here() == 8 * (At(lay.bs, lay.base, j) + |HeaderOf(lay.bs[j])|)
    }

    /** `mpc_bits_get_block`, and what it finds in front of block `j`. */
    method ReadHeader(ghost j: nat, ghost on: bool) returns (h: Option<(Block, nat)>)
      requires Valid() && Sized(lay.bs) && (d.count == 0 || d.count == 8)
      requires on ==> j < |lay.bs| && d.Unread() >= 0 && d.Here() == 8 * At(lay.bs, lay.base, j)
                      && (d.Unread() >= 11 || d.r.at == |d.r.stream|)
      modifies d`buff, d`count
      ensures Valid() && (h.Some? ==> d.count == 0 && d.Here() >= old(d.Here()) + 24)
      ensures on ==> h.Some? && AtContent(j, h.value.0)
    {
      hide *;
      SoundIs(this);
      if on { HeaderThere(d, lay, j); }
      DemuxIs(d);
      h := d.GetBlock();
      SoundIs(this);
      DemuxIs(d);
      if on { AtContentIs(this, j, h.value.0); }
    }

    /** Over the content of a block that is not audio. */
    method SkipBlock(b: Block, ghost j: nat, ghost on: bool) returns (h: Option<(Block, nat)>)
      requires Valid() && Sized(lay.bs) && d.count == 0 && b.size <= Sv8Blocks.SKIP_LIMIT
      requires on ==> d.r.Steady() && AtContent(j, b) && j + 1 < |lay.bs|
      modifies d`bytesTotal, d`buff, d`count, d`readError, d.buffer, d.r
      ensures Valid() && (h.Some? ==> d.count == 0 && d.Here() >= old(d.Here()) + 24)
      ensures old(d.r.Steady()) ==> d.r.Steady()
      ensures on ==> h.Some? && AtContent(j + 1, h.value.0)
    {
      hide *;
      Limits();
      SoundIs(this);
      DemuxIs(d);
      if on {
        AtContentIs(this, j, b);
        AtStep(lay.bs, lay.base, j);
        AtWithin(d.r.stream, lay.bs, lay.base, j + 1);
        TargetReaches(11 + b.size, true, d.r.canSeek, d.Unread());
      }
      var n := d.Fill(11 + b.size, true);
      DemuxIs(d);
      SoundIs(this);
      if n < b.size { return None; }
      d.Skip(b.size);
      DemuxIs(d);
      SoundIs(this);
      h := ReadHeader(j + 1, on);
    }

    /** At a block boundary: the next block is indexed if that is due. */
    method IndexHere(ghost on: bool)
      requires Valid() && Sized(lay.bs) && d.blockFrames == 0 && (on ==> Between())
      modifies this`table, this`right, d`count
      ensures Valid() && (d.count == 0 || d.count == 8)
      ensures on ==>
                && right && k < |lay.bs| && d.Here() == 8 * At(lay.bs, lay.base, k) && d.Unread() >= 0
                && Covered(table, capacity, shift, Audios(lay.bs, k) + 1)
    {
      hide *;
      Limits();
      SoundIs(this);
      if on {
        BetweenIs(this);
        DueIs(table, capacity, blockPwr, shift, Audios(lay.bs, k));
        CoveredNext(table, capacity, shift, Audios(lay.bs, k), 8 * At(lay.bs, lay.base, k));
      }
      d.ToByte();
      DemuxIs(d);
      SoundIs(this);
      if Due(table, capacity, decoded, blockPwr + shift) {
        var pos := d.Pos();
        DueRoom(table, capacity, decoded, blockPwr + shift);
        if pos >= 0 {
          AlignedMore(table, pos);
          if on { Extend(lay.bs, lay.base, shift, table, k); }
          table, right := table + [pos], right && on;
        }
      }
      SoundIs(this);
    }

    /** The header at a block boundary. */
    method FirstHeader(ghost on: bool) returns (h: Option<(Block, nat)>)
      requires Valid() && Sized(lay.bs) && d.blockFrames == 0 && (on ==> Between() && d.r.Steady())
      modifies this`table, this`right, d`bytesTotal, d`buff, d`count, d`readError, d.buffer, d.r
      ensures old(d.r.Steady()) ==> d.r.Steady()
      ensures Valid() && (h.Some? ==> d.count == 0)
      ensures on ==> right && d.r.Steady() && h.Some? && AtContent(k, h.value.0) && Covered(table, capacity, shift, Audios(lay.bs, k) + 1)
    {
      hide *;
      Limits();
      IndexHere(on);
      SoundIs(this);
      DemuxIs(d);
      TargetReaches(11, true, d.r.canSeek, d.Unread());
      var n := d.Fill(11, true);
      DemuxIs(d);
      SoundIs(this);
      h := ReadHeader(k, on);
    }

    /** How the way from block `was` to the next audio block ended. */
    ghost predicate Opened(was: nat, o: Outcome)
      reads this, d, d.r
      requires Sized(lay.bs) && was <= |lay.bs|
    {
      var j := NextOpen(lay.bs, was);
      j < |lay.bs| ==>
        if Audio(lay.bs[j]) then
          && o.Done? && k == j + 1 && d.Unread() >= 0 && d.count == 0 && d.blockBits == 8 * |lay.bs[j].data|
          && d.Here() == 8 * (At(lay.bs, lay.base, j) + |HeaderOf(lay.bs[j])|)
        else o == if lay.bs[j].key == Sv8Blocks.SE then Over else Failed
    }

    /** Scans all blocks until audio. */
    method OpenBlock(ghost on: bool) returns (o: Outcome)
      requires Valid() && Sized(lay.bs) && d.blockFrames == 0 && (on ==> Between() && d.r.Steady())
      modifies this`table, this`right, this`k, d, d.buffer, d.r
      ensures old(d.r.Steady()) ==> d.r.Steady()
      ensures Valid() && (o.Done? ==> d.blockFrames == Pow2(blockPwr) && d.blockBits >= 0)
      ensures !o.Done? ==> d.blockFrames == 0
      ensures on ==> old(k) < |lay.bs| && d.r.Steady() && right && Opened(old(k), o)
      ensures on ==> Covered(table, capacity, shift, Audios(lay.bs, old(k)) + 1)
    {
      hide *;
      Limits();
      BetweenIs(this);
      ghost var was: nat, here: nat, sure: bool := k, k, on;
      var h := FirstHeader(on);
      SoundIs(this);
      DemuxIs(d);
      if h.None? {
        if on { OpenedIs(this, was, Failed); }
        return Failed;
      }
      while h.Some? && h.value.0.key != Sv8Blocks.AP
        invariant Valid() && d.blockFrames == 0 && (on ==> right && was < |lay.bs|) && (sure ==> on)
        invariant old(d.r.Steady()) ==> d.r.Steady()
        invariant on ==> Covered(table, capacity, shift, Audios(lay.bs, was) + 1)
        invariant h.Some? ==> d.count == 0
        invariant sure ==> here < |lay.bs| && h.Some? && AtContent(here, h.value.0) && NextOpen(lay.bs, here) == NextOpen(lay.bs, was)
        invariant on && !sure ==> NextOpen(lay.bs, was) == |lay.bs|
        decreases h.Some?, 8 * |d.r.stream| + 8 * 65536 - d.Here()
      {
        SoundIs(this);
        DemuxIs(d);
        if sure {
          AtContentIs(this, here, h.value.0);
          NextOpenIs(lay.bs, here);
          PassableIs(lay.bs[here]);
          AudioIs(lay.bs[here]);
          OpenedIs(this, was, if h.value.0.key == Sv8Blocks.SE then Over else Failed);
        } else if on {
          OpenedIs(this, was, Over);
          OpenedIs(this, was, Failed);
        }
        if !Sv8Blocks.KeyOk(h.value.0.key) { return Failed; }
        if h.value.0.key == Sv8Blocks.SE { return Over; }
        if h.value.0.size > DEMUX_BUFFER_SIZE - 11 { return Failed; }
        if sure && here + 1 == |lay.bs| {
          NextOpenEnd(lay.bs);
          sure := false;
        }
        h := SkipBlock(h.value.0, here, sure);
        here := here + 1;
        SoundIs(this);
        DemuxIs(d);
      }
      if h.None? {
        if on { OpenedIs(this, was, Failed); }
        return Failed;
      }
      if sure {
        AtContentIs(this, here, h.value.0);
        NextOpenIs(lay.bs, here);
        AudioIs(lay.bs[here]);
        SizedAt(lay.bs, here);
      }
      if h.value.0.size > 268435455 {
        if on { OpenedIs(this, was, Failed); }
        return Failed;
      }
      SoundIs(this);
      k := here + 1;
      SoundIs(this);
      o := SetBlock(h.value.0.size);
      SoundIs(this);
      DemuxIs(d);
      if on { OpenedIs(this, was, o); }
    }

    method SetBlock(size: nat) returns (o: Outcome)
      requires Valid()
      modifies d`blockBits, d`blockFrames
      ensures Valid() && o.Done? && d.blockBits == 8 * size && d.blockFrames == Pow2(blockPwr)
    {
      hide Laid, IndexOk, Aligned;
      d.blockBits, d.blockFrames := 8 * size, Pow2(blockPwr);
      o := Done;
    }

    /** The reader stands in an open block, in front of the frames `fs`. */
    ghost predicate Inside()
      reads this, d, d.r, dec
      requires Sized(lay.bs)
    {
      && right && 1 <= k < |lay.bs| && Audio(lay.bs[k - 1]) && 1 <= d.blockFrames <= Pow2(blockPwr)
      && decoded + FRAME * d.blockFrames == Samples(Audios(lay.bs, k), blockPwr)
      && Covered(table, capacity, shift, Audios(lay.bs, k)) && dec.Valid()
      && 0 <= d.Here() <= 8 * d.r.at && 0 <= d.blockBits && d.Here() + d.blockBits == 8 * At(lay.bs, lay.base, k) <= 8 * |d.r.stream|
      && Remaining(lay.runs, Audios(lay.bs, k), Pow2(blockPwr), d.blockFrames, fs)
      && Left(Cut(d.r.stream, d.Here(), d.Here() + d.blockBits), books, msOn, maxBand, d.blockFrames == Pow2(blockPwr), em, fs)
      && (d.blockFrames == Pow2(blockPwr) || InStep(em, dec.Mem()))
    }

    /** The stream is as it should be, and so is the place in it. */
    ghost predicate Placed()
      reads this, d, d.r, dec
    {
      && Sized(lay.bs) && Closed(lay.bs) && SymsOk(books) && Carries(books, msOn, maxBand, Pow2(blockPwr), lay)
      && (if d.blockFrames == 0 then Between() else d.blockFrames < Pow2(blockPwr) && Inside())
    }

    /** And the source does not fail. */
    ghost predicate Playing()
      reads this, d, d.r, dec
    {
      Placed() && d.r.Steady()
    }

    /** Whether the length of the stream calls for more frames. */
    predicate More()
      reads this
    {
      samples == 0 || decoded < samples + SYNTH_DELAY
    }

    /** Reads ahead, so that the next frame, or the rest of the block, is in the window. */
    method Refill(ghost on: bool)
      requires Valid() && Sized(lay.bs)
      requires on ==> d.r.Steady() && 0 <= d.Here() <= 8 * d.r.at && 0 <= d.blockBits && d.Here() + d.blockBits <= 8 * |d.r.stream|
                      && (d.Here() + d.blockBits) % 8 == 0
      modifies d`bytesTotal, d`buff, d`count, d`readError, d.buffer, d.r
      ensures old(d.r.Steady()) ==> d.r.Steady()
      ensures Valid() && d.Here() == old(d.Here())
      ensures old(d.bytesTotal - d.buff) > 4352 ==> d.r.at == old(d.r.at) && d.bytesTotal == old(d.bytesTotal) && d.buff == old(d.buff)
      ensures on ==> d.r.Steady() && d.Here() <= 8 * d.r.at
                     && (d.Here() + d.blockBits <= 8 * d.r.at || d.Here() + MAX_FRAME_BITS <= 8 * d.r.at)
    {
      hide *;
      Limits();
      SoundIs(this);
      DemuxIs(d);
      if d.bytesTotal - d.buff <= 4352 {
        var least := if d.blockBits < 0 then 0 else d.blockBits / 8 + 1;
        TargetReaches(least, true, d.r.canSeek, d.Unread());
        var n := d.Fill(least, true);
        DemuxIs(d);
        SoundIs(this);
      }
    }

    /** The parser on the window. */
    method ReadFrame(key: bool)
      requires Valid() && dec.Valid() && SymsOk(books) && d.buffer.Length == 65536 && 0 <= 8 * d.buff + 8 - d.count <= 8 * 65536
      requires NextFrame(books, msOn, maxBand, key, dec.Mem(), d.Ahead()).Got?
      requires |NextFrame(books, msOn, maxBand, key, dec.Mem(), d.Ahead()).rest| >= 24
      modifies dec, d`buff, d`count
      ensures Valid() && dec.Valid()
      ensures d.buffer.Length == 65536 && 0 <= 8 * d.buff + 8 - d.count <= 8 * 65536
      ensures d.Here() == old(d.Here()) + |old(d.Ahead())| - |d.Ahead()|
      ensures NextFrame(books, msOn, maxBand, key, old(dec.Mem()), old(d.Ahead())) == Got(dec.Mem(), d.Ahead())
    {
      hide *;
      SoundIs(this);
      BufferIs(d);
      DemuxIs(d);
      d.PaddedAhead();
      NextFrameIs(books, msOn, maxBand, key, dec.Mem(), d.Ahead());
      MemParts2(dec);
      var rd := new BitReader.Resume([0, 0, 0, 0] + d.buffer[..], d.buff + 4, d.count);
      ReaderIs(rd);
      dec.ReadFrame(rd, books, msOn, maxBand, key);
      ReaderIs(rd);
      d.Stand(rd.pos - 4, rd.count);
      d.PaddedAhead();
      SoundIs(this);
      DemuxIs(d);
    }

    /** The next frame of an open block. */
    method TakeFrame(key: bool) returns (o: Outcome)
      requires Valid() && Sized(lay.bs) && Inside() && fs != [] && SymsOk(books) && key == (d.blockFrames == Pow2(blockPwr))
      requires d.Here() + d.blockBits <= 8 * d.r.at || d.Here() + MAX_FRAME_BITS <= 8 * d.r.at
      modifies this`decoded, this`fs, this`em, dec, d`buff, d`count, d`blockBits, d`blockFrames
      ensures Valid() && o.Done? && dec.Valid() && decoded == old(decoded) + FRAME && d.blockFrames == old(d.blockFrames) - 1
      ensures Recovers(msOn, maxBand, old(fs)[0], dec.Mem())
      ensures if d.blockFrames == 0 then Between() else Inside()
    {
      hide *;
      ghost var from, to := d.Here(), d.Here() + d.blockBits;
      InsideIs(this);
      SoundIs(this);
      DemuxIs(d);
      RemainingNext(lay.runs, Audios(lay.bs, k), Pow2(blockPwr), d.blockFrames, fs);
      var mark := 8 * d.buff - d.count;
      HeadTail(fs);
      ghost var next := Parse(key, fs[0], fs[1..]);
      WindowIs(this);
      CameIs(this, fs[0], fs[1..], next, to);
      o := Account(8 * d.buff - d.count - mark, d.Here(), to, next);
    }

    /** A frame has been read, and `rest` come behind it, up to bit `to`. */
    ghost predicate Came(f: Frame, rest: seq<Frame>, next: EncMem, to: int)
      reads this, d, d.r, dec
    {
      && dec.Valid() && InStep(next, dec.Mem()) && Left(Cut(d.r.stream, d.Here(), to), books, msOn, maxBand, false, next, rest)
      && Recovers(msOn, maxBand, f, dec.Mem())
    }

    /** The parser on the next frame. */
    method Parse(key: bool, ghost f: Frame, ghost rest: seq<Frame>) returns (ghost next: EncMem)
      requires Valid() && Sized(lay.bs) && fs == [f] + rest && Inside() && SymsOk(books) && key == (d.blockFrames == Pow2(blockPwr))
      requires d.Here() + d.blockBits <= 8 * d.r.at || d.Here() + MAX_FRAME_BITS <= 8 * d.r.at
      modifies dec, d`buff, d`count
      ensures 0 <= old(d.Here()) <= d.Here() <= old(d.Here()) + d.blockBits <= 8 * |d.r.stream| && d.Here() <= 8 * d.r.at
      ensures Valid() && Came(f, rest, next, old(d.Here()) + d.blockBits)
    {
      hide *;
      InsideIs(this);
      HeadTail([f] + rest);
      ghost var n := FrameThere(this, key);
      next := EncNext(em, fs[0], key, maxBand);
      ghost var from, to := d.Here(), d.Here() + d.blockBits;
      ReadFrame(key);
      assert d.Here() == from + n;
      CameIs(this, fs[0], fs[1..], next, to);
    }

    /** Counts a frame of `used` bits. */
    method Account(used: int, ghost from: nat, ghost to: nat, ghost next: EncMem) returns (o: Outcome)
      requires Valid() && Sized(lay.bs) && right && 1 <= k < |lay.bs| && Audio(lay.bs[k - 1]) && fs != []
      requires 1 <= d.blockFrames <= Pow2(blockPwr) && decoded + FRAME * d.blockFrames == Samples(Audios(lay.bs, k), blockPwr)
      requires Covered(table, capacity, shift, Audios(lay.bs, k)) && dec.Valid()
      requires d.Here() == from <= 8 * d.r.at && d.blockBits - used == to - from >= 0
      requires to == 8 * At(lay.bs, lay.base, k) <= 8 * |d.r.stream|
      requires Remaining(lay.runs, Audios(lay.bs, k), Pow2(blockPwr), d.blockFrames - 1, fs[1..])
      requires d.blockFrames == 1 ==> fs[1..] == []
      requires Left(Cut(d.r.stream, from, to), books, msOn, maxBand, false, next, fs[1..]) && InStep(next, dec.Mem())
      modifies this`decoded, this`fs, this`em, d`blockBits, d`blockFrames
      ensures Valid() && o.Done? && decoded == old(decoded) + FRAME && d.blockFrames == old(d.blockFrames) - 1
      ensures if d.blockFrames == 0 then Between() else Inside()
    {
      hide *;
      SoundIs(this);
      DemuxIs(d);
      em, fs, decoded := next, fs[1..], decoded + FRAME;
      d.Consume(used);
      SoundIs(this);
      DemuxIs(d);
      AfterFrame(this, from, to);
      o := Judge();
    }

    /** The test behind a frame. */
    method Judge() returns (o: Outcome)
      ensures o == if d.blockBits < 0 || (d.blockFrames == 0 && d.blockBits > 7) || d.Unread() < 0 then Failed else Done
    {
      if d.blockBits < 0 || (d.blockFrames == 0 && d.blockBits > 7) || d.Unread() < 0 { return Failed; }
      o := Done;
    }

    /** A block has been opened: all its frames are to come. */
    ghost method Enter(was: nat)
      requires Valid() && Sized(lay.bs) && Closed(lay.bs) && Carries(books, msOn, maxBand, Pow2(blockPwr), lay) && dec.Valid()
      requires was < |lay.bs| && right && Opened(was, Done) && d.blockFrames == Pow2(blockPwr)
      requires decoded == Samples(Audios(lay.bs, was), blockPwr) && Covered(table, capacity, shift, Audios(lay.bs, was) + 1)
      modifies this`fs, this`em
      ensures Inside() && fs != []
    {
      hide *;
      var j := NextOpen(lay.bs, was);
      OpenedIs(this, was, Done);
      NextOpenStops(lay.bs, was);
      NextOpenAudios(lay.bs, was);
      AudiosStep(lay.bs, j);
      SamplesMore(Audios(lay.bs, was), blockPwr);
      PowPos(blockPwr);
      SoundIs(this);
      DemuxIs(d);
      LaidAt(d.r.stream, lay.bs, lay.base, j);
      CarriesAt(books, msOn, maxBand, Pow2(blockPwr), lay, j);
      var run := lay.runs[Audios(lay.bs, j)];
      WholeRun(lay.runs, Audios(lay.bs, k), Pow2(blockPwr));
      ContentBits(d.r.stream, At(lay.bs, lay.base, j), lay.bs[j]);
      RunLeft(books, msOn, maxBand, Pow2(blockPwr), lay.bs[j], run);
      fs, em := run.frames, run.mem;
      InsideIs(this);
    }

    /** `mpc_demux_decode`: one frame, if there is one; with the place lost, nothing. While the length of the stream calls
        for more, an open block always gives its next frame, and at a block boundary the way to the next audio block
        decides; beyond it, no frame comes: an open block is counted down, and at a block boundary the end block is
        reported as the end. */
    method DecodeFrame() returns (o: Outcome)
      requires Usable() && dec.Valid()
      requires !syncLost && More() ==> Playing() && (d.blockFrames > 0 ==> fs != [])
      modifies this, dec, d, d.buffer, d.r
      ensures old(d.r.Steady()) ==> d.r.Steady()
      ensures Usable() && dec.Valid() && syncLost == old(syncLost) && skip == old(skip)
      ensures old(syncLost) ==> o.Failed? && Taken() == old(Taken()) && dec.Mem() == old(dec.Mem())
      ensures !o.Done? ==> decoded == old(decoded)
      ensures !old(syncLost) && old(More()) && old(d.blockFrames) > 0 ==> o.Done?
      ensures !old(syncLost) && old(More()) && old(d.blockFrames) == 0 ==>
                old(k) < |lay.bs|
                && var j := NextOpen(lay.bs, old(k));
                   j < |lay.bs| && o == if Audio(lay.bs[j]) then Done else if lay.bs[j].key == Sv8Blocks.SE then Over else Failed
      ensures !old(syncLost) && !old(More()) && old(d.blockFrames) > 0 ==> o == Spent(old(d.blockBits), old(d.blockFrames))
      ensures !old(syncLost) && !old(More()) && old(d.blockFrames) == 0 && old(Playing()) ==>
                old(k) < |lay.bs|
                && var j := NextOpen(lay.bs, old(k)); j < |lay.bs| && (lay.bs[j].key == Sv8Blocks.SE ==> o.Over?)
      ensures o.Done? ==> !old(syncLost) && old(More()) && decoded == old(decoded) + FRAME && Playing()
      ensures o.Done? ==> IsFrame(lay.runs, blockPwr, FrameNo(old(decoded)), msOn, maxBand, dec.Mem())
    {
      hide *;
      UsableIs(this);
      TakenIs(this);
      if syncLost { return Failed; }
      ghost var on, sure := More(), Playing();
      MoreIs(this);
      PlayingIs(this);
      SoundIs(this);
      var key := false;
      if d.blockFrames == 0 {
        BetweenIs(this);
        ghost var was := k;
        if sure { NextOpenStops(lay.bs, was); }
        o := OpenBlock(sure);
        if sure { OpenedIs(this, was, o); EndIs(lay.bs, NextOpen(lay.bs, was)); }
        SoundIs(this);
        UsableIs(this);
        if !o.Done? { return; }
        key := true;
        if on { Enter(was); }
      }
      SoundIs(this);
      MoreIs(this);
      PowPos(blockPwr);
      o := ReadOn(key, on);
      UsableIs(this);
      SoundIs(this);
      if on { PlayingIs(this); }
    }

    /** What decoding reports past the length of the stream, in an open block. */
    static function Spent(blockBits: int, blockFrames: nat): (o: Outcome)
      ensures !o.Done?
    {
      if blockBits < 0 || (blockFrames == 1 && blockBits > 7) then Failed else Over
    }

    /** The rest of `mpc_demux_decode_inner`, in an open block. */
    method ReadOn(key: bool, ghost on: bool) returns (o: Outcome)
      requires Valid() && Sized(lay.bs) && dec.Valid() && d.blockFrames >= 1 && (on <==> More())
      requires on ==> Inside() && fs != [] && d.r.Steady() && SymsOk(books) && key == (d.blockFrames == Pow2(blockPwr))
      modifies this`decoded, this`fs, this`em, dec, d, d.buffer, d.r
      ensures old(d.r.Steady()) ==> d.r.Steady()
      ensures Valid() && dec.Valid() && (on ==> o.Done? && d.r.Steady())
      ensures !on ==> decoded == old(decoded) && o == Spent(old(d.blockBits), old(d.blockFrames))
      ensures on ==> decoded == old(decoded) + FRAME && (if d.blockFrames == 0 then Between() else d.blockFrames < Pow2(blockPwr) && Inside())
      ensures on ==> IsFrame(lay.runs, blockPwr, FrameNo(old(decoded)), msOn, maxBand, dec.Mem())
    {
      hide *;
      if on {
        InsideIs(this);
        BlockAligned(d.Here() + d.blockBits, At(lay.bs, lay.base, k));
        FrameNumber(lay.runs, Audios(lay.bs, k), blockPwr, d.blockFrames, decoded, fs);
      }
      Refill(on);
      MoreIs(this);
      SoundIs(this);
      if samples != 0 && samples + SYNTH_DELAY <= decoded {
        SpentIs(d.blockBits, d.blockFrames);
        d.Consume(0);
        SoundIs(this);
        if d.blockBits < 0 || (d.blockFrames == 0 && d.blockBits > 7) { return Failed; }
        return Over;
      }
      InsideIs(this);
      ghost var f := fs[0];
      o := TakeFrame(key);
      TheFrame(lay.runs, blockPwr, FrameNo(old(decoded)), msOn, maxBand, f, dec.Mem());
    }
  }

  /** No more samples lie before the block than the stream has. */
  lemma HomeIs(x: Seeker, dest: nat)
    requires x.beg <= x.samples
    ensures Samples(x.Home(dest), x.blockPwr) + x.Inset(dest) == x.Goal(dest) <= x.samples
  {
    hide Samples, BlockSamples, Quotient, Remainder;
    SamplesTimes(x.Home(dest), x.blockPwr);
    DivMul(x.Goal(dest), BlockSamples(x.blockPwr));
  }

  /** The scan starts from the last of the `n` entries that is not behind the block wanted. */
  lemma EntryIs(x: Seeker, fwd: nat, n: nat)
    requires n > 0
    ensures x.Entry(fwd, n) <= Shr(fwd, x.shift)
    ensures Shl(x.Entry(fwd, n), x.shift) <= fwd
    ensures forall j :: 0 <= j < n && Shl(j, x.shift) <= fwd ==> j <= x.Entry(fwd, n)
  {
    hide Shr, Shl, Low;
    var q := Shr(fwd, x.shift);
    Recompose(fwd, x.shift);
    ShlMono(x.Entry(fwd, n), q, x.shift);
    forall j: nat | j < n && Shl(j, x.shift) <= fwd ensures j <= q {
      if j > q {
        ShlMono(q + 1, j, x.shift);
        ShlPlus(q, 1, x.shift);
        ShlPow2(x.shift);
      }
    }
  }

  lemma OpenedIs(x: Seeker, was: nat, o: Outcome)
    requires Sized(x.lay.bs) && was <= |x.lay.bs|
    ensures var j := NextOpen(x.lay.bs, was);
            x.Opened(was, o) <==>
              (j < |x.lay.bs| ==>
                 if Audio(x.lay.bs[j]) then
                   && o.Done? && x.k == j + 1 && x.d.Unread() >= 0 && x.d.count == 0 && x.d.blockBits == 8 * |x.lay.bs[j].data|
                   && x.d.Here() == 8 * (At(x.lay.bs, x.lay.base, j) + |HeaderOf(x.lay.bs[j])|)
                 else o == if x.lay.bs[j].key == Sv8Blocks.SE then Over else Failed)
  {
    hide At, HeaderOf, NextOpen, Audio;
  }

  lemma StreamSize(s: seq<Byte>)
    ensures |BytesToBits(s)| == 8 * |s|
  {}

  lemma SliceTail(s: Bits, i: nat, j: nat, n: nat)
    requires i + n <= j <= |s|
    ensures s[i..j][n..] == s[i + n..j]
  {}

  /** The window holds the rest of the block, or enough of it. */
  lemma Sight(s: Bits, from: nat, to: nat, end: nat, tail: Bits)
    requires from <= to <= |s| && from <= end <= |s| && (to <= end || from + MAX_FRAME_BITS <= end)
    ensures InSight(s[from..to], s[from..end] + tail, tail, end - from)
  {
    if to <= end {
      assert s[from..end] == s[from..to] + s[to..end];
    } else {
      assert s[from..end] == s[from..to][..end - from];
    }
  }

  lemma InsideIs(x: Seeker)
    requires Sized(x.lay.bs)
    ensures x.Inside() <==>
              && x.right && 1 <= x.k < |x.lay.bs| && Audio(x.lay.bs[x.k - 1]) && 1 <= x.d.blockFrames <= Pow2(x.blockPwr)
              && x.decoded + FRAME * x.d.blockFrames == Samples(Audios(x.lay.bs, x.k), x.blockPwr)
              && Covered(x.table, x.capacity, x.shift, Audios(x.lay.bs, x.k)) && x.dec.Valid()
              && 0 <= x.d.Here() <= 8 * x.d.r.at && 0 <= x.d.blockBits
              && x.d.Here() + x.d.blockBits == 8 * At(x.lay.bs, x.lay.base, x.k) <= 8 * |x.d.r.stream|
              && Remaining(x.lay.runs, Audios(x.lay.bs, x.k), Pow2(x.blockPwr), x.d.blockFrames, x.fs)
              && Left(Cut(x.d.r.stream, x.d.Here(), x.d.Here() + x.d.blockBits), x.books, x.msOn, x.maxBand,
                      x.d.blockFrames == Pow2(x.blockPwr), x.em, x.fs)
              && (x.d.blockFrames == Pow2(x.blockPwr) || InStep(x.em, x.dec.Mem()))
  {
    hide At, Samples, Audios, Covered, Remaining, Left, InStep, BytesToBits, Pow2, Audio, Demux.Here;
  }

  /** Frames in so many samples. */
  function FrameNo(decoded: nat): nat { decoded / FRAME }

  /** Frame `n` of the stream is what the decoder holds. */
  ghost predicate IsFrame(runs: seq<Run>, pwr: nat, n: nat, msOn: bool, maxBand: nat, d: DecMem)
  {
    && Shr(n, pwr) < |runs| && Low(n, pwr) < |runs[Shr(n, pwr)].frames|
    && Recovers(msOn, maxBand, runs[Shr(n, pwr)].frames[Low(n, pwr)], d)
  }

  lemma TheFrame(runs: seq<Run>, pwr: nat, n: nat, msOn: bool, maxBand: nat, f: Frame, d: DecMem)
    requires Shr(n, pwr) < |runs| && Low(n, pwr) < |runs[Shr(n, pwr)].frames| && runs[Shr(n, pwr)].frames[Low(n, pwr)] == f
    requires Recovers(msOn, maxBand, f, d)
    ensures IsFrame(runs, pwr, n, msOn, maxBand, d)
  {
    hide Recovers, Shr, Low;
  }

  lemma FrameCounted(q: nat, pwr: nat, count: nat, decoded: nat)
    requires q >= 1 && count <= Pow2(pwr) && decoded + FRAME * count == Samples(q, pwr)
    ensures FrameNo(decoded) == Shl(q - 1, pwr) + (Pow2(pwr) - count)
  {
    hide Shl, Pow2;
    ShlTimes(q, pwr);
    ShlPlus(q - 1, 1, pwr);
    ShlPow2(pwr);
    assert decoded == FRAME * (Shl(q - 1, pwr) + (Pow2(pwr) - count));
  }

  /** The number of the next frame of a block, from what has been decoded. */
  lemma FrameNumber(runs: seq<Run>, q: nat, pwr: nat, count: nat, decoded: nat, fs: seq<Frame>)
    requires Remaining(runs, q, Pow2(pwr), count, fs) && count >= 1 && fs != [] && decoded + FRAME * count == Samples(q, pwr)
    ensures var n := FrameNo(decoded);
            Shr(n, pwr) < |runs| && Low(n, pwr) < |runs[Shr(n, pwr)].frames| && runs[Shr(n, pwr)].frames[Low(n, pwr)] == fs[0]
  {
    hide *;
    RemainingNext(runs, q, Pow2(pwr), count, fs);
    FrameCounted(q, pwr, count, decoded);
    ShrIn(q - 1, Pow2(pwr) - count, pwr);
  }

  lemma BlockAligned(to: nat, at: nat)
    requires to == 8 * at
    ensures to % 8 == 0
  {}

  lemma SpentIs(blockBits: int, blockFrames: nat)
    ensures Seeker.Spent(blockBits, blockFrames) == if blockBits < 0 || (blockFrames == 1 && blockBits > 7) then Failed else Over
  {}

  lemma EndIs(bs: seq<Blk>, j: nat)
    requires j < |bs|
    ensures bs[j].key == Sv8Blocks.SE ==> !Audio(bs[j])
  {}

  lemma MoreIs(x: Seeker)
    ensures x.More() <==> x.samples == 0 || x.decoded < x.samples + SYNTH_DELAY
  {}

  lemma PlayingIs(x: Seeker)
    ensures x.Playing() <==> x.Placed() && x.d.r.Steady()
    ensures x.Placed() <==>
              && Sized(x.lay.bs) && Closed(x.lay.bs) && SymsOk(x.books)
              && Carries(x.books, x.msOn, x.maxBand, Pow2(x.blockPwr), x.lay)
              && (if x.d.blockFrames == 0 then x.Between() else x.d.blockFrames < Pow2(x.blockPwr) && x.Inside())
  {
    hide Sized, Closed, SymsOk, Reader.Steady, Carries, Pow2, Seeker.Between, Seeker.Inside;
  }

  lemma CarriesAt(b: Books, msOn: bool, maxBand: nat, full: nat, lay: Layout, j: nat)
    requires Carries(b, msOn, maxBand, full, lay) && j < |lay.bs| && Audio(lay.bs[j])
    ensures Audios(lay.bs, j) < |lay.runs| && RunOk(b, msOn, maxBand, full, lay.bs[j], lay.runs[Audios(lay.bs, j)])
    ensures 1 <= |lay.runs[Audios(lay.bs, j)].frames| <= full
  {
    hide Short;
  }

  lemma WholeRun(runs: seq<Run>, n: nat, full: nat)
    requires 1 <= n <= |runs| && |runs[n - 1].frames| <= full
    ensures Remaining(runs, n, full, full, runs[n - 1].frames)
  {
    assert runs[n - 1].frames[0..] == runs[n - 1].frames;
  }

  lemma ContentBits(stream: seq<Byte>, p: nat, x: Blk)
    requires |x.data| <= Sv8Blocks.AUDIO_LIMIT && LiesAt(stream, p, x)
    ensures p + |HeaderOf(x)| + |x.data| <= |stream|
    ensures Cut(stream, 8 * (p + |HeaderOf(x)|), 8 * (p + |HeaderOf(x)| + |x.data|)) == BytesToBits(x.data)
  {
    LiesIs(stream, p, x);
    hide *;
    HeaderOfIs(x);
    CutIs(stream, 8 * (p + |HeaderOf(x)|), 8 * (p + |HeaderOf(x)| + |x.data|));
    BytesSlice(stream, p + |HeaderOf(x)|, p + |HeaderOf(x)| + |x.data|);
  }

  lemma RunLeft(b: Books, msOn: bool, maxBand: nat, full: nat, x: Blk, run: Run)
    requires RunOk(b, msOn, maxBand, full, x, run)
    ensures Left(BytesToBits(x.data), b, msOn, maxBand, true, run.mem, run.frames)
  {
    hide BooksValid, RunBits, BytesToBits, Sv8Blocks.Payload;
    var r := RunBits(b, msOn, maxBand, true, run.mem, run.frames);
    Sv8Blocks.PayloadBits(r);
    PadSmall(|r|);
    TakePrefix(r, Enc(0, Sv8Blocks.Pad(|r|)));
  }

  lemma PadSmall(n: nat)
    ensures Sv8Blocks.Pad(n) < 8
  {}

  lemma HeadTail(fs: seq<Frame>)
    requires fs != []
    ensures fs == [fs[0]] + fs[1..]
  {}

  lemma CameIs(x: Seeker, f: Frame, rest: seq<Frame>, next: EncMem, to: int)
    ensures x.Came(f, rest, next, to) <==>
              && x.dec.Valid() && InStep(next, x.dec.Mem())
              && Left(Cut(x.d.r.stream, x.d.Here(), to), x.books, x.msOn, x.maxBand, false, next, rest)
              && Recovers(x.msOn, x.maxBand, f, x.dec.Mem())
  {
    hide InStep, Left, Recovers, Cut, FrameDecoder.Valid;
  }

  /** In front of a frame that is in the window. */
  lemma FrameThere(x: Seeker, key: bool) returns (n: nat)
    requires x.Valid() && Sized(x.lay.bs) && x.Inside() && x.fs != [] && SymsOk(x.books)
    requires key == (x.d.blockFrames == Pow2(x.blockPwr))
    requires x.d.Here() + x.d.blockBits <= 8 * x.d.r.at || x.d.Here() + MAX_FRAME_BITS <= 8 * x.d.r.at
    ensures x.d.buffer.Length == 65536 && 0 <= 8 * x.d.buff + 8 - x.d.count <= 8 * 65536
    ensures 0 <= x.d.Here() && x.d.Here() + x.d.blockBits <= 8 * |x.d.r.stream| && n <= x.d.blockBits && n <= MAX_FRAME_BITS
    ensures x.maxBand < 32 && EncMemOk(x.em) && FrameOk(x.fs[0])
    ensures var p := NextFrame(x.books, x.msOn, x.maxBand, key, x.dec.Mem(), x.d.Ahead());
            && p.Got? && |p.rest| >= 24 && |x.d.Ahead()| - |p.rest| == n
            && Recovers(x.msOn, x.maxBand, x.fs[0], p.value) && InStep(EncNext(x.em, x.fs[0], key, x.maxBand), p.value)
    ensures Left(Cut(x.d.r.stream, x.d.Here() + n, x.d.Here() + x.d.blockBits), x.books, x.msOn, x.maxBand, false,
                 EncNext(x.em, x.fs[0], key, x.maxBand), x.fs[1..])
  {
    hide *;
    InsideIs(x);
    SoundIs(x);
    DemuxIs(x.d);
    BufferIs(x.d);
    Limits();
    MemParts2(x.dec);
    x.d.WindowBits();
    var bits, from, to := BytesToBits(x.d.r.stream), x.d.Here(), x.d.Here() + x.d.blockBits;
    var tail := BytesToBits(x.d.buffer[x.d.bytesTotal..]);
    StreamSize(x.d.r.stream);
    CutIs(x.d.r.stream, from, to);
    StreamSize(x.d.buffer[x.d.bytesTotal..]);
    Sight(bits, from, to, 8 * x.d.r.at, tail);
    LeftStep(bits[from..to], x.books, x.msOn, x.maxBand, key, x.em, x.fs);
    FrameFound(bits[from..to], x.d.Ahead(), tail, 8 * x.d.r.at - from, x.books, x.msOn, x.maxBand, key, x.em, x.dec.Mem(), x.fs);
    n := |FrameBits(x.books, x.msOn, x.maxBand, key, x.em, x.fs[0])|;
    SliceTail(bits, from, to, n);
    CutIs(x.d.r.stream, from + n, to);
  }

  lemma WindowIs(x: Seeker)
    requires x.Valid()
    ensures x.d.Valid() && x.d.Here() == 8 * (x.d.r.at - x.d.bytesTotal + x.d.buff) + 8 - x.d.count
  {}

  /** Behind a frame: in the block still, or at its end. */
  lemma AfterFrame(x: Seeker, from: nat, to: nat)
    requires x.Valid() && Sized(x.lay.bs) && x.right && 1 <= x.k < |x.lay.bs| && Audio(x.lay.bs[x.k - 1])
    requires x.d.blockFrames < Pow2(x.blockPwr) && x.decoded + FRAME * x.d.blockFrames == Samples(Audios(x.lay.bs, x.k), x.blockPwr)
    requires Covered(x.table, x.capacity, x.shift, Audios(x.lay.bs, x.k)) && x.dec.Valid()
    requires x.d.Here() == from <= 8 * x.d.r.at && x.d.blockBits == to - from >= 0
    requires to == 8 * At(x.lay.bs, x.lay.base, x.k) <= 8 * |x.d.r.stream|
    requires Remaining(x.lay.runs, Audios(x.lay.bs, x.k), Pow2(x.blockPwr), x.d.blockFrames, x.fs)
    requires x.d.blockFrames == 0 ==> x.fs == []
    requires Left(Cut(x.d.r.stream, from, to), x.books, x.msOn, x.maxBand, false, x.em, x.fs) && InStep(x.em, x.dec.Mem())
    ensures x.d.Unread() >= 0 && (x.d.blockFrames == 0 ==> x.d.blockBits <= 7)
    ensures if x.d.blockFrames == 0 then x.Between() else x.Inside()
  {
    hide *;
    SoundIs(x);
    DemuxIs(x.d);
    BetweenIs(x);
    InsideIs(x);
    CutIs(x.d.r.stream, from, to);
    if x.d.blockFrames == 0 { LeftNone(Cut(x.d.r.stream, from, to), x.books, x.msOn, x.maxBand, false, x.em); }
  }

  lemma ReaderIs(rd: BitReader)
    ensures rd.Valid() <==> 0 <= rd.count <= 8 && 32 <= rd.At() <= 8 * |rd.data|
    ensures rd.At() == 8 * rd.pos + 8 - rd.count
    ensures rd.Valid() ==> rd.Remaining() == BytesToBits(rd.data)[rd.At()..]
  {
    hide BytesToBits;
  }

  lemma PassableIs(x: Blk)
    ensures Sv8Blocks.KeyOk(Sv8Blocks.SE)
    ensures Passable(x) <==> Sv8Blocks.KeyOk(x.key) && x.key != Sv8Blocks.SE && |x.data| <= Sv8Blocks.SKIP_LIMIT
  {}

  lemma NextOpenEnd(bs: seq<Blk>)
    ensures NextOpen(bs, |bs|) == |bs|
  {}

  lemma AtContentIs(x: Seeker, j: nat, b: Block)
    requires Sized(x.lay.bs)
    ensures x.AtContent(j, b) <==>
              && j < |x.lay.bs| && x.d.count == 0 && x.d.buff >= 0 && x.d.Unread() >= 0
              && b == Block(x.lay.bs[j].key, |x.lay.bs[j].data|)
              && x.d.Here() == 8 * (At(x.lay.bs, x.lay.base, j) + |HeaderOf(x.lay.bs[j])|)
  {
    hide At, HeaderOf, Demux.Unread, Demux.Here;
  }

  lemma UsableIs(x: Seeker)
    ensures x.Usable() <==> x.Sound() && Sized(x.lay.bs) && (if x.syncLost then x.d.r.canSeek else x.d.Valid())
  {
    hide Seeker.Sound, Sized, Demux.Valid;
  }

  lemma TakenIs(x: Seeker)
    ensures x.Taken() == Snapshot(x.d.buffer[..], x.d.bytesTotal, x.d.buff, x.d.count, x.d.readError, x.d.blockBits,
                                  x.d.blockFrames, x.table, x.decoded, x.skip)
  {}

  /** Whether the window is that of the stream depends on nothing else. */
  twostate lemma SameWindow(d: Demux)
    requires old(d.Valid()) && d.r.Valid()
    requires d.buffer[..] == old(d.buffer[..]) && d.bytesTotal == old(d.bytesTotal) && d.buff == old(d.buff)
    requires d.count == old(d.count) && d.r.at == old(d.r.at)
    ensures d.Valid()
  {
    assert d.buffer[..d.bytesTotal] == d.buffer[..][..d.bytesTotal];
  }

  /** Nor does the place in the stream. */
  twostate lemma SamePlace(x: Seeker)
    requires old(x.Placed()) && x.Taken() == old(x.Taken()) && x.d.r.at == old(x.d.r.at) && unchanged(x.dec)
    requires x.right == old(x.right) && x.k == old(x.k) && x.fs == old(x.fs) && x.em == old(x.em)
    ensures x.Placed()
  {
    hide Sized, Closed, SymsOk, Carries, At, Samples, Audios, Covered, Remaining, Left, InStep, Cut, Pow2, Audio;
    hide FrameDecoder.Valid, FrameDecoder.Mem;
  }

  lemma AlignedAt(table: seq<nat>, i: nat)
    requires Aligned(table) && i < |table|
    ensures table[i] % 8 == 0
  {}

  function Quotient(a: nat, b: nat): nat
    requires b > 0
  {
    a / b
  }

  function Remainder(a: nat, b: nat): nat
    requires b > 0
  {
    a % b
  }

  lemma DivMul(a: nat, b: nat)
    requires b > 0
    ensures Quotient(a, b) * b + Remainder(a, b) == a && Remainder(a, b) < b
  {}

  lemma CoveredAt(table: seq<nat>, capacity: nat, shift: nat, i: nat)
    requires i < |table|
    ensures Covered(table, capacity, shift, Shl(i, shift))
  {
    hide Shl;
    ShlMono(i, |table|, shift);
  }

  lemma BetweenIs(x: Seeker)
    requires Sized(x.lay.bs)
    ensures x.Between() <==>
              && x.right && x.d.blockFrames == 0 && x.k < |x.lay.bs| && x.d.Border() <= x.d.bytesTotal
              && x.d.r.at - x.d.bytesTotal + x.d.Border() == At(x.lay.bs, x.lay.base, x.k)
              && x.decoded == Samples(Audios(x.lay.bs, x.k), x.blockPwr)
              && Covered(x.table, x.capacity, x.shift, Audios(x.lay.bs, x.k))
  {
    hide At, Samples, Audios, Covered, Demux.Border;
  }

  lemma SoundIs(x: Seeker)
    ensures x.Sound() <==>
              && x.d.r.Valid() && x.d.buffer.Length == 65536
              && Laid(x.d.r.stream, x.lay.bs, x.lay.base) && x.lay.base <= |x.d.r.stream| < STREAM_LIMIT
              && x.samples < STREAM_LIMIT && |x.table| <= x.capacity && Aligned(x.table)
              && (x.right ==> IndexOk(x.lay.bs, x.lay.base, x.shift, x.table))
    ensures x.Valid() <==> x.Sound() && x.d.Valid()
    ensures x.Sound() ==> x.d.r.at <= |x.d.r.stream|
  {
    hide Laid, IndexOk, Aligned, Demux.Valid;
  }

  lemma ScanningIs(x: Seeker, i: nat, fpos: nat, h: (Block, nat), fwd: nat, wanted: bool, late: bool, steady: bool, sincere: bool)
    ensures x.Scanning(i, fpos, h, fwd, wanted, late, steady, sincere) <==>
              && x.Valid() && Sized(x.lay.bs) && x.Reading(i, fpos, h.1) && i <= fwd && Samples(fwd, x.blockPwr) < STREAM_LIMIT
              && (x.right ==> x.OnTrack(i, fpos, h.0, h.1) && !late)
              && (sincere ==> x.d.r.Sincere() && (Reachable(x.lay.bs, fwd) && !late ==> x.right))
              && (steady ==> sincere && x.d.r.Steady() && x.d.r.canSeek && x.Wanted(fwd, i, wanted, late))
  {
    hide Seeker.Valid, Sized, Seeker.Reading, Samples, Seeker.OnTrack, Reachable, Seeker.Wanted, Reader.Sincere, Reader.Steady;
  }

  lemma GaveUpIs(x: Seeker, fwd: nat, wanted: bool, late: bool, steady: bool, sincere: bool)
    ensures x.GaveUp(fwd, wanted, late, steady, sincere) <==>
              && x.Valid() && (x.right ==> !late) && (sincere ==> x.d.r.Sincere())
              && (steady ==> x.d.r.Steady() && late == wanted && (Reachable(x.lay.bs, fwd) ==> late))
  {
    hide Seeker.Valid, Reachable, Reader.Sincere, Reader.Steady;
  }

  lemma WantedIs(x: Seeker, fwd: nat, i: nat, wanted: bool, late: bool)
    requires Sized(x.lay.bs)
    ensures x.Wanted(fwd, i, wanted, late) <==>
              && (late ==> wanted) && (!x.right && !late ==> !wanted)
              && (x.right ==>
                    && x.k < |x.lay.bs|
                    && (wanted <==> i < fwd && x.k + 1 < |x.lay.bs|
                                    && LateScan(x.lay.bs, x.lay.base, x.k + 1, fwd, x.d.r.at, x.d.bytesTotal, 0, |x.d.r.stream|)))
  {
    hide LateScan;
  }

  /** Some place has `fwd` audio blocks before it. */
  ghost predicate Reachable(bs: seq<Blk>, fwd: nat) { exists k :: 0 <= k < |bs| && Audios(bs, k) == fwd }

  /** Nothing behind the last such place is looked at. */
  lemma NotBeyond(bs: seq<Blk>, k: nat, fwd: nat)
    requires Reachable(bs, fwd) && k <= |bs| && Audios(bs, k) <= fwd
    ensures Audios(bs, k) < fwd ==> k + 1 < |bs|
  {
    var j :| 0 <= j < |bs| && Audios(bs, j) == fwd;
    if j <= k { AudiosGrow(bs, j, k); }
  }

  lemma AudioIs(x: Blk)
    ensures Audio(x) <==> x.key == Sv8Blocks.AP
  {}

  lemma {:induction false} SamplesMono(a: nat, b: nat, pwr: nat)
    requires a <= b
    ensures Samples(a, pwr) <= Samples(b, pwr)
    decreases b - a
  {
    hide Samples;
    if a < b {
      SamplesMore(b - 1, pwr);
      SamplesMono(a, b - 1, pwr);
    }
  }

  lemma SizedAt(bs: seq<Blk>, j: nat)
    requires Sized(bs) && j < |bs|
    ensures |bs[j].data| <= Sv8Blocks.AUDIO_LIMIT
  {}

  lemma LateIs(d: Demux, fpos: nat)
    ensures d.Late(fpos, 11) == IsLate(d.r.at, d.bytesTotal, d.count, d.r.canSeek, fpos, 11)
  {}

  lemma ReadingIs(x: Seeker, i: nat, fpos: nat, size: nat)
    ensures x.Reading(i, fpos, size) <==>
              && x.d.count == 0 && -1 <= x.d.buff - size < x.d.bytesTotal && x.d.buff <= 65535 && x.d.blockFrames == 0 && size >= 3
              && fpos % 8 == 0 && (x.d.Here() == fpos + 8 * size || x.d.Here() == fpos + 8 + 8 * size)
              && x.decoded == Samples(i, x.blockPwr) && fpos <= 8 * |x.d.r.stream| + 7
  {
    hide Samples;
  }

  lemma OnTrackIs(x: Seeker, i: nat, fpos: nat, b: Block, size: nat)
    requires Sized(x.lay.bs)
    ensures x.OnTrack(i, fpos, b, size) <==>
              && x.k < |x.lay.bs| && fpos == 8 * At(x.lay.bs, x.lay.base, x.k) && Audios(x.lay.bs, x.k) == i
              && Covered(x.table, x.capacity, x.shift, i) && x.d.Here() == fpos + 8 * size
              && (b, size) == (Block(x.lay.bs[x.k].key, |x.lay.bs[x.k].data|), |HeaderOf(x.lay.bs[x.k])|)
  {
    hide At, Audios, Covered, HeaderOf;
  }

  lemma DueRoom(table: seq<nat>, capacity: nat, decoded: nat, seekPwr: nat)
    requires Due(table, capacity, decoded, seekPwr)
    ensures |table| < capacity
  {
    hide Samples;
  }

  lemma AlignedMore(table: seq<nat>, x: nat)
    requires Aligned(table) && x % 8 == 0
    ensures Aligned(table + [x])
  {}

  predicate Aligned(table: seq<nat>) { forall i :: 0 <= i < |table| ==> table[i] % 8 == 0 }

  lemma Limits()
    ensures MAX_FRAME_BITS == 34816 && DEMUX_BUFFER_SIZE == 61184 && Sv8Blocks.AUDIO_LIMIT == 268435455
    ensures Sv8Blocks.SKIP_LIMIT == 61173 && U64_LIMIT == 16 * STREAM_LIMIT && STREAM_LIMIT == 0x1000_0000_0000_0000
  {}

  lemma DemuxIs(d: Demux)
    requires d.Valid()
    ensures d.r.Valid() && d.r.at <= |d.r.stream| && d.bytesTotal <= d.r.at && d.bytesTotal <= DEMUX_BUFFER_SIZE && d.count <= 8
    ensures d.Unread() == d.bytesTotal - d.buff - (if d.count == 0 then 1 else 0)
    ensures d.Here() == 8 * (d.r.at - d.bytesTotal + d.buff) + 8 - d.count && (if d.count == 0 then -1 else 0) <= d.buff <= 65535
    ensures d.Border() == if d.count == 8 then d.buff else d.buff + 1
  {}

  lemma InWindowIs(d: Demux, fpos: nat)
    ensures d.InWindow(fpos) <==> 8 * (d.r.at - d.bytesTotal) <= fpos < 8 * d.r.at
  {}

  lemma SeekerIs(x: Seeker)
    ensures x.Valid() <==>
              && x.d.Valid() && Laid(x.d.r.stream, x.lay.bs, x.lay.base) && x.lay.base <= |x.d.r.stream| < STREAM_LIMIT
              && x.samples < STREAM_LIMIT && |x.table| <= x.capacity && Aligned(x.table)
              && (x.right ==> IndexOk(x.lay.bs, x.lay.base, x.shift, x.table))
  {
    hide Laid, IndexOk, Aligned;
  }

  /** With the reader on a block and its header in the window, the header is read as it was written. */
  lemma HeaderThere(d: Demux, lay: Layout, j: nat)
    requires d.Valid() && d.Unread() >= 0 && (d.count == 0 || d.count == 8) && Laid(d.r.stream, lay.bs, lay.base) && j < |lay.bs|
    requires Sized(lay.bs) && d.Here() == 8 * At(lay.bs, lay.base, j)
    requires d.Unread() >= 11 || d.r.at == |d.r.stream|
    ensures d.buffer.Length == 65536 && 0 <= 8 * d.buff + 8 - d.count <= 8 * 65536 && |lay.bs[j].data| <= Sv8Blocks.AUDIO_LIMIT
    ensures BlockDec(d.Ahead()).Got?
    ensures BlockDec(d.Ahead()).value == (Block(lay.bs[j].key, |lay.bs[j].data|), |HeaderOf(lay.bs[j])|)
    ensures 8 * (At(lay.bs, lay.base, j) + |HeaderOf(lay.bs[j])|) <= 8 * d.r.at
  {
    hide *;
    DemuxIs(d);
    BufferIs(d);
    LaidAt(d.r.stream, lay.bs, lay.base, j);
    HeaderOfIs(lay.bs[j]);
    LiesIs(d.r.stream, At(lay.bs, lay.base, j), lay.bs[j]);
    d.HeaderAhead(At(lay.bs, lay.base, j), lay.bs[j].key, |lay.bs[j].data|);
  }

  lemma BufferIs(d: Demux)
    requires d.Valid()
    ensures d.buffer.Length == 65536 && (d.Unread() >= 0 ==> d.buff <= 61184)
  {}

  lemma HeaderOfIs(x: Blk)
    requires |x.data| <= Sv8Blocks.AUDIO_LIMIT
    ensures Fits(|x.data| + 2, true, 9) && HeaderOf(x) == BlockHeader(x.key, |x.data|) && 3 <= |HeaderOf(x)| <= 11
  {
    Sv8Blocks.LimitFits(|x.data|);
    hide BlockHeader, Fits;
  }

  lemma LiesIs(stream: seq<Byte>, p: nat, x: Blk)
    requires |x.data| <= Sv8Blocks.AUDIO_LIMIT && LiesAt(stream, p, x)
    ensures p + |HeaderOf(x)| + |x.data| <= |stream|
    ensures stream[p..p + |HeaderOf(x)|] == HeaderOf(x)
    ensures stream[p + |HeaderOf(x)|..p + |HeaderOf(x)| + |x.data|] == x.data
  {
    hide HeaderOf;
  }
}
