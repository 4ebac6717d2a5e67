/** The audio stream: key frames open blocks, which are padded to bytes and framed by their own length. */
module Sv8Blocks {
  import opened BitStrings
  import opened Integers
  import opened Sizes
  import opened Codebooks
  import opened Sv8Header
  import opened Sv8Frame
  import opened Sv8Memory
  import opened Sv8Stream

  const AP: (Byte, Byte) := (65, 80)
  const SE: (Byte, Byte) := (83, 69)

  /** Block keys are two capital letters. */
  predicate KeyOk(key: (Byte, Byte)) { 65 <= key.0 <= 90 && 65 <= key.1 <= 90 }

  /** Blocks that are skipped must fit the demuxer's window, beside the longest header. */
  const SKIP_LIMIT: nat := 65536 - 4352 - 11

  /** `INT32_MAX / 8`. */
  const AUDIO_LIMIT: nat := 268435455

  // ----- bytes -----

  function Pack(b: Bits): (s: seq<Byte>)
    requires |b| % 8 == 0
    ensures |s| == |b| / 8
  {
    if b == [] then []
    else
      Pow2Facts();
      Pack(b[..|b| - 8]) + [Val(b[|b| - 8..]) as Byte]
  }

  lemma PackStep(b: Bits)
    requires |b| % 8 == 0 && b != []
    ensures |b| >= 8 && Val(b[|b| - 8..]) < 256
    ensures Pack(b) == Pack(b[..|b| - 8]) + [Val(b[|b| - 8..]) as Byte]
  {
    hide Val;
  }

  lemma PackNone()
    ensures Pack([]) == [] && BytesToBits([]) == []
  {}

  lemma {:induction false} PackBits(b: Bits)
    requires |b| % 8 == 0
    ensures BytesToBits(Pack(b)) == b
    decreases |b|
  {
    hide *;
    if b == [] {
      PackNone();
    } else {
      PackStep(b);
      var h, t := b[..|b| - 8], b[|b| - 8..];
      var x := Val(t) as Byte;
      PackBits(h);
      BytesConcat(Pack(h), [x]);
      OneByte(x);
      EncVal(t);
      TakeDrop(b, |b| - 8);
    }
  }

  lemma TakeDrop<T>(s: seq<T>, i: nat)
    requires i <= |s|
    ensures s == s[..i] + s[i..]
  {}

  /** The zero bits that fill the last byte. */
  function Pad(n: nat): nat { (8 - n % 8) % 8 }

  function Payload(bits: Bits): (s: seq<Byte>)
    ensures 8 * |s| == |bits| + Pad(|bits|)
  {
    Pack(bits + Enc(0, Pad(|bits|)))
  }

  lemma PayloadBits(bits: Bits)
    ensures BytesToBits(Payload(bits)) == bits + Enc(0, Pad(|bits|))
  {
    hide Enc, Pack;
    PackBits(bits + Enc(0, Pad(|bits|)));
  }

  // ----- the stream as written -----

  /** A block of another kind. */
  datatype Extra = Extra(key: (Byte, Byte), data: seq<Byte>)

  predicate ExtraOk(x: Extra)
  {
    KeyOk(x.key) && x.key != AP && x.key != SE && |x.data| <= SKIP_LIMIT
  }

  /** One audio block, and the other blocks in front of it. */
  datatype Group = Group(before: seq<Extra>, frames: seq<Frame>)

  lemma LimitFits(size: nat)
    requires size <= AUDIO_LIMIT
    ensures Fits(size + 2, true, 9)
  {
    hide Pow128;
    Pow128Nine();
  }

  ghost function FramedBits(key: (Byte, Byte), data: seq<Byte>): Bits
    requires |data| <= AUDIO_LIMIT
  {
    LimitFits(|data|);
    BytesToBits(BlockHeader(key, |data|)) + BytesToBits(data)
  }

  ghost function ExtraBits(xs: seq<Extra>): Bits
    requires forall i :: 0 <= i < |xs| ==> ExtraOk(xs[i])
  {
    if xs == [] then []
    else
      assert ExtraOk(xs[0]);
      FramedBits(xs[0].key, xs[0].data) + ExtraBits(xs[1..])
  }

  lemma ExtraStep(xs: seq<Extra>)
    requires xs != [] && forall i :: 0 <= i < |xs| ==> ExtraOk(xs[i])
    ensures ExtraOk(xs[0]) && |xs[0].data| <= AUDIO_LIMIT && forall i :: 0 <= i < |xs[1..]| ==> ExtraOk(xs[1..][i])
    ensures ExtraBits(xs) == FramedBits(xs[0].key, xs[0].data) + ExtraBits(xs[1..])
  {
    assert ExtraOk(xs[0]);
    hide FramedBits;
  }

  /** Every block is full but the last, and all of them fit the limits. */
  ghost predicate GroupsOk(b: Books, msOn: bool, maxBand: nat, full: nat, m: EncMem, gs: seq<Group>)
    requires BooksValid(b) && maxBand < 32 && EncMemOk(m)
    decreases |gs|
  {
    gs == [] ||
    (var g := gs[0];
     && FramesOk(g.frames) && 1 <= |g.frames| <= full && (|gs| > 1 ==> |g.frames| == full)
     && (forall i :: 0 <= i < |g.before| ==> ExtraOk(g.before[i]))
     && |Payload(RunBits(b, msOn, maxBand, true, m, g.frames))| <= AUDIO_LIMIT
     && GroupsOk(b, msOn, maxBand, full, RunEnc(maxBand, true, m, g.frames), gs[1..]))
  }

  ghost function StreamBits(b: Books, msOn: bool, maxBand: nat, full: nat, m: EncMem, gs: seq<Group>): Bits
    requires BooksValid(b) && maxBand < 32 && EncMemOk(m) && GroupsOk(b, msOn, maxBand, full, m, gs)
    decreases |gs|
  {
    if gs == [] then []
    else
      var g := gs[0];
      ExtraBits(g.before)
      + (FramedBits(AP, Payload(RunBits(b, msOn, maxBand, true, m, g.frames)))
         + StreamBits(b, msOn, maxBand, full, RunEnc(maxBand, true, m, g.frames), gs[1..]))
  }

  function AllFrames(gs: seq<Group>): seq<Frame>
  {
    if gs == [] then [] else gs[0].frames + AllFrames(gs[1..])
  }

  // ----- the stream as read -----

  /** Skips blocks until an audio block; what is left starts with its payload. */
  function NextAudio(s: Bits): Parsed<nat>
    decreases |s|
  {
    var (p, s1) :- BlockDec(s);
    var blk := p.0;
    if blk.key == AP then
      if blk.size <= AUDIO_LIMIT then Got(blk.size, s1) else NoData
    else if !KeyOk(blk.key) || blk.key == SE || blk.size > SKIP_LIMIT || 8 * blk.size > |s1| then NoData
    else
      BlockShrinks(s);
      NextAudio(s1[8 * blk.size..])
  }

  lemma BlockShrinks(s: Bits)
    ensures BlockDec(s).Got? ==> |BlockDec(s).rest| < |s|
  {
    hide Val;
    if BlockDec(s).Got? {
      var s1 := Take(s, 8).rest;
      SizeShrinks(Take(s1, 8).rest, 0, 0);
    }
  }

  lemma {:induction false} SizeShrinks(s: Bits, acc: nat, n: nat)
    ensures SizeDec(s, acc, n).Got? ==> |SizeDec(s, acc, n).rest| < |s|
    decreases |s|
  {
    hide Val;
    var p := Take(s, 8);
    if p.Got? { SizeShrinks(p.rest, (128 * acc + p.value % 128) % 0x1_0000_0000_0000_0000, n + 1); }
  }

  /** Decodes `left` frames: a block's first frame is a key frame; a full block must end within a byte of its
      size, and the reader then skips to the byte boundary. */
  ghost function StreamDec(b: Books, msOn: bool, maxBand: nat, full: nat, d: DecMem, left: nat, s: Bits)
    : (p: Parsed<seq<DecMem>>)
    requires BooksValid(b) && maxBand < 32 && DecMemOk(d) && full >= 1
    decreases left
  {
    if left == 0 then Got([], s)
    else
      var (size, s1) :- NextAudio(s);
      var n := if left < full then left else full;
      var (ds, s2) :- RunDec(b, msOn, maxBand, true, d, n, s1);
      if n < full then Got(ds, s2)
      else
        var skip := 8 * size - (|s1| - |s2|);
        if !(0 <= skip <= 7 && skip <= |s2|) || !DecMemOk(ds[n - 1]) then NoData
        else
          var (more, s3) :- StreamDec(b, msOn, maxBand, full, ds[n - 1], left - n, s2[skip..]);
          Got(ds + more, s3)
  }

  lemma {:induction false} SkipExtras(xs: seq<Extra>, rest: Bits)
    requires forall i :: 0 <= i < |xs| ==> ExtraOk(xs[i])
    ensures NextAudio(ExtraBits(xs) + rest) == NextAudio(rest)
    decreases |xs|
  {
    if xs == [] {
      assert ExtraBits(xs) + rest == rest;
    } else {
      hide *;
      ExtraStep(xs);
      var more := ExtraBits(xs[1..]) + rest;
      Assoc(FramedBits(xs[0].key, xs[0].data), ExtraBits(xs[1..]), rest);
      SkipOne(xs[0], more);
      SkipExtras(xs[1..], rest);
    }
  }

  lemma FramedDec(key: (Byte, Byte), data: seq<Byte>, rest: Bits)
    requires |data| <= AUDIO_LIMIT
    ensures Fits(|data| + 2, true, 9)
    ensures BlockDec(FramedBits(key, data) + rest)
         == Got((Block(key, |data|), |BlockHeader(key, |data|)|), BytesToBits(data) + rest)
  {
    LimitFits(|data|);
    FramedIs(key, data);
    hide *;
    Assoc(BytesToBits(BlockHeader(key, |data|)), BytesToBits(data), rest);
    BlockRoundTrip(key, |data|, BytesToBits(data) + rest);
  }

  lemma FramedIs(key: (Byte, Byte), data: seq<Byte>)
    requires |data| <= AUDIO_LIMIT && Fits(|data| + 2, true, 9)
    ensures FramedBits(key, data) == BytesToBits(BlockHeader(key, |data|)) + BytesToBits(data)
  {}

  lemma SkipOne(x: Extra, rest: Bits)
    requires ExtraOk(x)
    ensures NextAudio(FramedBits(x.key, x.data) + rest) == NextAudio(rest)
  {
    hide BlockDec, FramedBits, BytesToBits, Fits, BlockHeader;
    FramedDec(x.key, x.data, rest);
    TakePrefix(BytesToBits(x.data), rest);
  }

  lemma AudioFound(data: seq<Byte>, rest: Bits)
    requires |data| <= AUDIO_LIMIT
    ensures NextAudio(FramedBits(AP, data) + rest) == Got(|data|, BytesToBits(data) + rest)
  {
    hide BlockDec, FramedBits, BytesToBits, Fits, BlockHeader;
    FramedDec(AP, data, rest);
  }

  /** What the demuxer does with a block in front of it: an audio block is entered, the end of the stream, a key that is
      not two capital letters or a block that does not fit the window stops it, anything else is passed over. */
  lemma NextAudioCases(key: (Byte, Byte), data: seq<Byte>, rest: Bits)
    requires |data| <= 0x7FFF_FFFF / 8
    ensures NextAudio(FramedBits(key, data) + rest)
         == if key == ('A' as int as Byte, 'P' as int as Byte) then Got(|data|, BytesToBits(data) + rest)
            else if key == ('S' as int as Byte, 'E' as int as Byte) || |data| > 61173 then NoData
            else if 'A' as int <= key.0 as int <= 'Z' as int && 'A' as int <= key.1 as int <= 'Z' as int then NextAudio(rest)
            else NoData
  {
    hide BlockDec, FramedBits, BytesToBits, Fits, BlockHeader;
    FramedDec(key, data, rest);
    TakePrefix(BytesToBits(data), rest);
  }

  /** An audio block is entered whatever bytes follow its header, unless it is longer than `INT32_MAX / 8`. */
  lemma TooLong(s: Bits)
    requires BlockDec(s).Got? && BlockDec(s).value.0.key == ('A' as int as Byte, 'P' as int as Byte)
    ensures NextAudio(s) == if BlockDec(s).value.0.size > 0x7FFF_FFFF / 8 then NoData else Got(BlockDec(s).value.0.size, BlockDec(s).rest)
  {
    hide BlockDec;
  }

  /** Every block that is written begins with its key, and an audio block with the letters A and P. */
  lemma KeyFirst(key: (Byte, Byte), data: seq<Byte>)
    requires |data| <= 0x7FFF_FFFF / 8
    ensures |FramedBits(key, data)| >= 16 && FramedBits(key, data)[..16] == Enc(key.0 as int, 8) + Enc(key.1 as int, 8)
    ensures AP.0 as int == 'A' as int && AP.1 as int == 'P' as int && SE.0 as int == 'S' as int && SE.1 as int == 'E' as int
  {
    hide Enc, SizeCode, Fits;
    LimitFits(|data|);
    var code := SizeCode(|data| + 2, true);
    var h := BlockHeader(key, |data|);
    BytesConcat([key.0], [key.1] + code);
    BytesConcat([key.1], code);
    OneByte(key.0);
    OneByte(key.1);
    assert FramedBits(key, data)[..16] == BytesToBits(h)[..16];
  }

  lemma StreamStep(b: Books, msOn: bool, maxBand: nat, full: nat, m: EncMem, gs: seq<Group>, rest: Bits)
    requires BooksValid(b) && maxBand < 32 && EncMemOk(m) && GroupsOk(b, msOn, maxBand, full, m, gs) && gs != []
    ensures var g := gs[0];
            && FramesOk(g.frames) && 1 <= |g.frames| <= full && (|gs| > 1 ==> |g.frames| == full)
            && (forall i :: 0 <= i < |g.before| ==> ExtraOk(g.before[i]))
            && var n := RunEnc(maxBand, true, m, g.frames);
            && EncMemOk(n) && GroupsOk(b, msOn, maxBand, full, n, gs[1..])
            && var data := Payload(RunBits(b, msOn, maxBand, true, m, g.frames));
            && |data| <= AUDIO_LIMIT
            && StreamBits(b, msOn, maxBand, full, m, gs) + rest
               == ExtraBits(g.before) + (FramedBits(AP, data) + (StreamBits(b, msOn, maxBand, full, n, gs[1..]) + rest))
            && AllFrames(gs) == g.frames + AllFrames(gs[1..])
  {
    hide BooksValid, EncMemOk, FramesOk, ExtraOk, RunBits, RunEnc, FramedBits, ExtraBits, Payload;
    var g := gs[0];
    var n := RunEnc(maxBand, true, m, g.frames);
    var x, y, z := ExtraBits(g.before), FramedBits(AP, Payload(RunBits(b, msOn, maxBand, true, m, g.frames))),
                   StreamBits(b, msOn, maxBand, full, n, gs[1..]);
    Assoc(x, y + z, rest);
    Assoc(y, z, rest);
  }

  lemma FullBlockDec(b: Books, msOn: bool, maxBand: nat, full: nat, d: DecMem, left: nat, s: Bits,
                     bits: Bits, ds: seq<DecMem>, rest: Bits, more: seq<DecMem>, end: Bits)
    requires BooksValid(b) && maxBand < 32 && DecMemOk(d) && 1 <= full <= left && |ds| == full && DecMemOk(ds[full - 1])
    requires NextAudio(s) == Got(|Payload(bits)|, bits + (Enc(0, Pad(|bits|)) + rest))
    requires RunDec(b, msOn, maxBand, true, d, full, bits + (Enc(0, Pad(|bits|)) + rest))
          == Got(ds, Enc(0, Pad(|bits|)) + rest)
    requires StreamDec(b, msOn, maxBand, full, ds[full - 1], left - full, rest) == Got(more, end)
    ensures StreamDec(b, msOn, maxBand, full, d, left, s) == Got(ds + more, end)
  {
    hide BooksValid, DecMemOk, NextAudio, RunDec, Enc, Payload;
    TakePrefix(Enc(0, Pad(|bits|)), rest);
  }

  lemma ShortBlockDec(b: Books, msOn: bool, maxBand: nat, full: nat, d: DecMem, left: nat, s: Bits, s1: Bits, size: nat,
                      ds: seq<DecMem>, s2: Bits)
    requires BooksValid(b) && maxBand < 32 && DecMemOk(d) && 1 <= left < full
    requires NextAudio(s) == Got(size, s1) && RunDec(b, msOn, maxBand, true, d, left, s1) == Got(ds, s2)
    ensures StreamDec(b, msOn, maxBand, full, d, left, s) == Got(ds, s2)
  {
    hide BooksValid, DecMemOk, NextAudio, RunDec;
  }

  lemma AllRecoversConcat(msOn: bool, maxBand: nat, fs: seq<Frame>, ds: seq<DecMem>, gs: seq<Frame>, es: seq<DecMem>)
    requires AllRecovers(msOn, maxBand, fs, ds) && AllRecovers(msOn, maxBand, gs, es)
    ensures AllRecovers(msOn, maxBand, fs + gs, ds + es)
  {
    hide Recovers;
  }

  lemma LastOk(msOn: bool, maxBand: nat, fs: seq<Frame>, ds: seq<DecMem>)
    requires AllRecovers(msOn, maxBand, fs, ds) && fs != []
    ensures |ds| == |fs| && DecMemOk(ds[|ds| - 1])
  {
    assert Recovers(msOn, maxBand, fs[|fs| - 1], ds[|fs| - 1]);
  }

  lemma NoGroups(b: Books, msOn: bool, maxBand: nat, full: nat, m: EncMem, d: DecMem, rest: Bits)
    requires BooksValid(b) && maxBand < 32 && EncMemOk(m) && DecMemOk(d) && full >= 1
    requires GroupsOk(b, msOn, maxBand, full, m, [])
    ensures AllFrames([]) == []
    ensures StreamDec(b, msOn, maxBand, full, d, 0, StreamBits(b, msOn, maxBand, full, m, []) + rest) == Got([], rest)
    ensures AllRecovers(msOn, maxBand, [], [])
  {
    hide BooksValid, EncMemOk, FrameOk;
  }

  /** The whole stream comes back, frame by frame, whatever the encoder and the decoder remembered before:
      each block opens with a key frame. */
  lemma {:induction false} StreamRoundTrip(b: Books, msOn: bool, maxBand: nat, full: nat, m: EncMem, d: DecMem,
                                           gs: seq<Group>, rest: Bits) returns (ds: seq<DecMem>, end: Bits)
    requires BooksValid(b) && maxBand < 32 && EncMemOk(m) && DecMemOk(d) && full >= 1
    requires GroupsOk(b, msOn, maxBand, full, m, gs)
    ensures StreamDec(b, msOn, maxBand, full, d, |AllFrames(gs)|, StreamBits(b, msOn, maxBand, full, m, gs) + rest) == Got(ds, end)
    ensures AllRecovers(msOn, maxBand, AllFrames(gs), ds)
    decreases |gs|
  {
    hide *;
    if gs == [] {
      NoGroups(b, msOn, maxBand, full, m, d, rest);
      ds, end := [], rest;
    } else {
      StreamStep(b, msOn, maxBand, full, m, gs, rest);
      var g, left, s := gs[0], |AllFrames(gs)|, StreamBits(b, msOn, maxBand, full, m, gs) + rest;
      var n := RunEnc(maxBand, true, m, g.frames);
      var bits := RunBits(b, msOn, maxBand, true, m, g.frames);
      var tail := StreamBits(b, msOn, maxBand, full, n, gs[1..]) + rest;
      var s2 := Enc(0, Pad(|bits|)) + tail;
      SkipExtras(g.before, FramedBits(AP, Payload(bits)) + tail);
      AudioFound(Payload(bits), tail);
      PayloadBits(bits);
      Assoc(bits, Enc(0, Pad(|bits|)), tail);
      ds := RunRoundTrip(b, msOn, maxBand, true, m, d, g.frames, s2);
      LastOk(msOn, maxBand, g.frames, ds);
      if |g.frames| == full {
        var more;
        more, end := StreamRoundTrip(b, msOn, maxBand, full, n, ds[full - 1], gs[1..], rest);
        FullBlockDec(b, msOn, maxBand, full, d, left, s, bits, ds, tail, more, end);
        AllRecoversConcat(msOn, maxBand, g.frames, ds, AllFrames(gs[1..]), more);
        ds := ds + more;
      } else {
        OnlyGroup(gs);
        end := s2;
        ShortBlockDec(b, msOn, maxBand, full, d, left, s, bits + s2, |Payload(bits)|, ds, s2);
      }
    }
  }

  lemma OnlyGroup(gs: seq<Group>)
    requires |gs| == 1
    ensures AllFrames(gs) == gs[0].frames
  {
    assert AllFrames(gs[1..]) == [];
  }

  // ----- joining a stream in the middle -----

  /** Where block `j`, with the blocks in front of it, begins: in bits, from the start of the stream. */
  ghost function BlockOffset(b: Books, msOn: bool, maxBand: nat, full: nat, m: EncMem, gs: seq<Group>, j: nat): nat
    requires BooksValid(b) && maxBand < 32 && EncMemOk(m) && GroupsOk(b, msOn, maxBand, full, m, gs) && j <= |gs|
    decreases j
  {
    if j == 0 then 0
    else
      var g := gs[0];
      |ExtraBits(g.before)| + |FramedBits(AP, Payload(RunBits(b, msOn, maxBand, true, m, g.frames)))|
      + BlockOffset(b, msOn, maxBand, full, RunEnc(maxBand, true, m, g.frames), gs[1..], j - 1)
  }

  lemma BlockOffsetStep(b: Books, msOn: bool, maxBand: nat, full: nat, m: EncMem, gs: seq<Group>, j: nat)
    requires BooksValid(b) && maxBand < 32 && EncMemOk(m) && GroupsOk(b, msOn, maxBand, full, m, gs) && 0 < j <= |gs|
    ensures var g := gs[0];
            && FramesOk(g.frames) && (forall i :: 0 <= i < |g.before| ==> ExtraOk(g.before[i]))
            && var n := RunEnc(maxBand, true, m, g.frames);
            && EncMemOk(n) && GroupsOk(b, msOn, maxBand, full, n, gs[1..])
            && var data := Payload(RunBits(b, msOn, maxBand, true, m, g.frames));
            && |data| <= AUDIO_LIMIT
            && BlockOffset(b, msOn, maxBand, full, m, gs, j)
               == |ExtraBits(g.before)| + |FramedBits(AP, data)| + BlockOffset(b, msOn, maxBand, full, n, gs[1..], j - 1)
  {
    hide BooksValid, EncMemOk, FramesOk, ExtraOk, RunBits, RunEnc, FramedBits, ExtraBits, Payload;
  }

  lemma BlockOffsetNone(b: Books, msOn: bool, maxBand: nat, full: nat, m: EncMem, gs: seq<Group>)
    requires BooksValid(b) && maxBand < 32 && EncMemOk(m) && GroupsOk(b, msOn, maxBand, full, m, gs)
    ensures BlockOffset(b, msOn, maxBand, full, m, gs, 0) == 0
  {}

  /** The stream from block `j` on is the stream of the remaining blocks; it lies at the byte where block `j`
      begins, and a decoder that jumps there with any memory recovers every frame from there on. */
  lemma {:induction false} JoinAtBlock(b: Books, msOn: bool, maxBand: nat, full: nat, m: EncMem, d: DecMem,
                                       gs: seq<Group>, j: nat, rest: Bits)
    returns (ds: seq<DecMem>, end: Bits)
    requires BooksValid(b) && maxBand < 32 && EncMemOk(m) && DecMemOk(d) && full >= 1
    requires GroupsOk(b, msOn, maxBand, full, m, gs) && j <= |gs|
    ensures var s, off := StreamBits(b, msOn, maxBand, full, m, gs) + rest, BlockOffset(b, msOn, maxBand, full, m, gs, j);
            && off <= |s| && off % 8 == 0
            && StreamDec(b, msOn, maxBand, full, d, |AllFrames(gs[j..])|, s[off..]) == Got(ds, end)
            && AllRecovers(msOn, maxBand, AllFrames(gs[j..]), ds)
    decreases j
  {
    hide *;
    if j == 0 {
      ds, end := StreamRoundTrip(b, msOn, maxBand, full, m, d, gs, rest);
      BlockOffsetNone(b, msOn, maxBand, full, m, gs);
    } else {
      StreamStep(b, msOn, maxBand, full, m, gs, rest);
      BlockOffsetStep(b, msOn, maxBand, full, m, gs, j);
      var g := gs[0];
      var n := RunEnc(maxBand, true, m, g.frames);
      var data := Payload(RunBits(b, msOn, maxBand, true, m, g.frames));
      var x, y := ExtraBits(g.before), FramedBits(AP, data);
      var tail := StreamBits(b, msOn, maxBand, full, n, gs[1..]) + rest;
      ds, end := JoinAtBlock(b, msOn, maxBand, full, n, d, gs[1..], j - 1, rest);
      var off := BlockOffset(b, msOn, maxBand, full, n, gs[1..], j - 1);
      DropDrop(gs, 1, j - 1);
      Assoc(x, y, tail);
      TakePrefix(x + y, tail);
      DropDrop((x + y) + tail, |x + y|, off);
      ExtraWhole(g.before);
      FramedWhole(AP, data);
      Mod8Sum(|x|, |y|);
      Mod8Sum(|x| + |y|, off);
    }
  }

  lemma FramedWhole(key: (Byte, Byte), data: seq<Byte>)
    requires |data| <= AUDIO_LIMIT
    ensures |FramedBits(key, data)| % 8 == 0
  {
    hide BlockHeader;
    LimitFits(|data|);
  }

  lemma NoExtras()
    ensures ExtraBits([]) == []
  {}

  lemma Mod8Sum(a: nat, b: nat)
    requires a % 8 == 0 && b % 8 == 0
    ensures (a + b) % 8 == 0
  {}

  lemma {:induction false} ExtraWhole(xs: seq<Extra>)
    requires forall i :: 0 <= i < |xs| ==> ExtraOk(xs[i])
    ensures |ExtraBits(xs)| % 8 == 0
  {
    hide *;
    if xs == [] {
      NoExtras();
    } else {
      ExtraStep(xs);
      FramedWhole(xs[0].key, xs[0].data);
      ExtraWhole(xs[1..]);
      Mod8Sum(|FramedBits(xs[0].key, xs[0].data)|, |ExtraBits(xs[1..])|);
    }
  }
}
