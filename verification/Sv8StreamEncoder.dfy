/** The encoder over a whole stream: frames into blocks, blocks into the output, starts into the seek table. */
module Sv8StreamEncoding {
  import opened BitStrings
  import opened BitWriting
  import opened Integers
  import opened Sizes
  import opened Codebooks
  import opened Sv8Header
  import opened Sv8Frame
  import opened Sv8Memory
  import opened Sv8Stream
  import opened Sv8Blocks
  import opened Sv8Encoding
  import opened Sv8FrameEncoding
  import Crc32

  // ----- writing a block -----

  function Nulls(n: nat): (s: seq<Byte>)
    ensures |s| == n
  {
    if n == 0 then [] else Nulls(n - 1) + [0]
  }

  function Larger(a: nat, b: nat): nat { if a > b then a else b }

  /** The length of a block's content: of what is to go into it and its check, but not less than `minSize`. */
  function DataSize(size: nat, addCrc: bool, minSize: nat): nat { Larger(size + (if addCrc then 4 else 0), minSize) }

  /** The bytes that are checked: the bits, and zeros up to the length. */
  function Content(bits: Bits, addCrc: bool, minSize: nat): seq<Byte>
  {
    var p := Payload(bits);
    p + Nulls(DataSize(|p|, addCrc, minSize) - |p| - (if addCrc then 4 else 0))
  }

  /** What a block holds for some bits. */
  function BlockData(bits: Bits, addCrc: bool, minSize: nat): (d: seq<Byte>)
    ensures |d| == DataSize(|Payload(bits)|, addCrc, minSize)
  {
    var c := Content(bits, addCrc, minSize);
    CheckSize(c);
    (if addCrc then Payload(Crc32.Crc(c)) else []) + c
  }

  lemma CheckSize(c: seq<Byte>)
    ensures |Payload(Crc32.Crc(c))| == 4
  {
    hide Crc32.Crc;
  }

  /** An audio block holds just its bits. */
  lemma PlainData(bits: Bits)
    ensures BlockData(bits, false, 0) == Payload(bits)
  {
    hide Payload;
  }

  lemma DataIs(n: nat)
    ensures DataSize(n, false, 0) == n
  {}

  /** A block with a check passes the reader's test, and shows what was put into it, filled up with zeros: so the
      header may be written again in its place. */
  lemma CheckedData(bits: Bits, minSize: nat)
    ensures var d := BlockData(bits, true, minSize);
            && Crc32.Accepts(d) && |d| >= minSize && |d| >= 4 && d[4..] == Content(bits, true, minSize)
            && |Payload(bits)| <= |d| - 4 && d[4..][..|Payload(bits)|] == Payload(bits)
    ensures BytesToBits(BlockData(bits, true, minSize)) == Crc32.Checked(Content(bits, true, minSize))
  {
    hide Payload, Crc32.Crc, BytesToBits, Enc;
    var c, p := Content(bits, true, minSize), Payload(bits);
    var w := Crc32.Crc(c);
    CheckSize(c);
    PayloadBits(w);
    WholeWord();
    NoBits(w);
    BytesConcat(Payload(w), c);
    Crc32.Framed(BlockData(bits, true, minSize), c);
    assert c[..|p|] == p;
  }

  lemma WholeWord()
    ensures Enc(0, Pad(32)) == []
  {}

  /** Pads the writer's content to bytes, and fills it up. */
  method FillUp(e: BitWriter, addCrc: bool, minSize: nat)
    requires e.Valid() && e.Free() >= 7 && 8 * DataSize(|Payload(e.Contents())|, addCrc, minSize) <= 8 * e.buffer.Length
    modifies e, e.buffer
    ensures e.Valid() && e.buffer == old(e.buffer) && e.bitsCount == 0
    ensures e.buffer[..e.pos] == Content(old(e.Contents()), addCrc, minSize)
  {
    hide *;
    ghost var bits := e.Contents();
    PadIs(e);
    PayloadSize(e);
    Pow2Pos((8 - e.bitsCount % 8) % 8);
    e.WriteBits(0, (8 - e.bitsCount % 8) % 8);
    FreePos(e);
    e.EmptyBits();
    FreePos(e);
    ModLess(e.bitsCount);
    EmptyPending(e);
    PayloadBits(bits);
    BytesUnique(e.buffer[..e.pos], Payload(bits));
    var len := e.pos + (if addCrc then 4 else 0);
    ContentIs(bits, addCrc, minSize);
    if minSize > len {
      Fill(e, minSize - len);
      NullBits(minSize - len);
      BytesConcat(Payload(bits), Nulls(minSize - len));
      FreePos(e);
      BytesUnique(e.buffer[..e.pos], Payload(bits) + Nulls(minSize - len));
    } else {
      AddNone(Payload(bits));
    }
  }

  lemma ContentIs(bits: Bits, addCrc: bool, minSize: nat)
    ensures var p := Payload(bits); var len := |p| + (if addCrc then 4 else 0);
            && DataSize(|p|, addCrc, minSize) == (if minSize > len then minSize else len)
            && Content(bits, addCrc, minSize) == p + (if minSize > len then Nulls(minSize - len) else [])
  {
    hide Payload;
  }

  lemma AddNone(s: seq<Byte>)
    ensures s + [] == s
  {}

  lemma {:induction false} NullBits(n: nat)
    ensures BytesToBits(Nulls(n)) == Enc(0, 8 * n)
  {
    hide BytesToBits, Enc;
    if n == 0 {
      NullNone();
    } else {
      NullBits(n - 1);
      BytesConcat(Nulls(n - 1), [0]);
      OneByte(0);
      EncZeros(8 * (n - 1), 8);
    }
  }

  lemma NullNone()
    ensures BytesToBits([]) == [] == Enc(0, 0)
  {}

  lemma {:induction false} EncZeros(m: nat, n: nat)
    ensures Enc(0, m) + Enc(0, n) == Enc(0, m + n)
    decreases n
  {
    if n == 0 {
      assert Enc(0, m) + [] == Enc(0, m);
    } else {
      EncZeros(m, n - 1);
      assert Enc(0, m) + (Enc(0, n - 1) + [false]) == (Enc(0, m) + Enc(0, n - 1)) + [false];
    }
  }

  /** Writes `pad` zero bytes behind whole bytes. */
  method Fill(e: BitWriter, pad: nat)
    requires e.Valid() && e.bitsCount == 0 && e.Free() >= 8 * pad && |e.Contents()| % 8 == 0
    modifies e, e.buffer
    ensures e.Valid() && e.buffer == old(e.buffer) && e.bitsCount == 0
    ensures BytesToBits(e.buffer[..e.pos]) == old(e.Contents()) + Enc(0, 8 * pad)
  {
    hide *;
    ghost var start, free := e.Contents(), e.Free();
    NullNone();
    NoBits(start);
    Pow2Pos(8);
    var i := 0;
    while i < pad
      invariant 0 <= i <= pad && e.Valid() && e.buffer == old(e.buffer) && e.Free() == free - 8 * i
      invariant e.Contents() == start + Enc(0, 8 * i)
    {
      e.WriteBits(0, 8);
      Assoc(start, Enc(0, 8 * i), Enc(0, 8));
      EncZeros(8 * i, 8);
      i := i + 1;
    }
    ZerosLength(8 * pad);
    FreePos(e);
    e.EmptyBits();
    ModLess(e.bitsCount);
    EmptyPending(e);
  }

  lemma ZerosLength(n: nat)
    ensures |Enc(0, n)| == n
  {}

  /** `writeBlock`: pads the writer's content, adds the check if there is to be one, and moves it to the output. */
  method WriteBlock(e: BitWriter, key: (Byte, Byte), addCrc: bool, minSize: nat) returns (block: seq<Byte>)
    requires e.Valid() && e.Free() >= 7 && DataSize(|Payload(e.Contents())|, addCrc, minSize) <= e.buffer.Length
    requires |BlockData(e.Contents(), addCrc, minSize)| <= AUDIO_LIMIT
    modifies e, e.buffer
    ensures e.Valid() && e.buffer == old(e.buffer) && e.Contents() == []
    ensures BytesToBits(block) == FramedBits(key, BlockData(old(e.Contents()), addCrc, minSize))
    ensures e.Free() == 8 * e.buffer.Length
  {
    hide *;
    ghost var bits := e.Contents();
    FillUp(e, addCrc, minSize);
    FreePos(e);
    var content := e.buffer[..e.pos];
    CheckSize(content);
    BlockDataIs(bits, addCrc, minSize);
    var check: seq<Byte> := [];
    if addCrc {
      var table := Crc32.MakeCrcTable();
      var c := Crc32.UpdateCrc(table, Crc32.Ones32(), content);
      CrcIs(content);
      check := Payload(Crc32.Xor(c, Crc32.Ones32()));
    }
    LimitFits(e.pos + |check|);
    var blockSize := new Byte[10];
    var len := EncodeSize(e.pos + |check| + 2, blockSize, true);
    block := [key.0] + ([key.1] + blockSize[..len]) + (check + content);
    BlockIs(key, check + content);
    e.pos := 0;
    Emptied(e);
  }

  lemma BlockDataIs(bits: Bits, addCrc: bool, minSize: nat)
    ensures var c := Content(bits, addCrc, minSize);
            BlockData(bits, addCrc, minSize) == (if addCrc then Payload(Crc32.Crc(c)) else []) + c
  {
    hide Payload, Crc32.Crc, Content;
  }

  lemma CrcIs(s: seq<Byte>)
    ensures Crc32.Crc(s) == Crc32.Xor(Crc32.Register(Crc32.Ones32(), s), Crc32.Ones32())
  {}

  lemma Pow2Pos(n: nat)
    ensures 0 < Pow2(n)
  {}

  /** The pending bits decide the padding. */
  lemma PadIs(e: BitWriter)
    requires e.Valid()
    ensures (8 - e.bitsCount % 8) % 8 == Pad(|e.Contents()|)
  {
    hide BytesToBits, Enc;
    var n := |e.Contents()|;
    assert n == 8 * e.pos + e.bitsCount;
    assert n % 8 == e.bitsCount % 8;
  }

  lemma PayloadSize(e: BitWriter)
    requires e.Valid()
    ensures 8 * |Payload(e.Contents())| == |e.Contents()| + Pad(|e.Contents()|) && (|e.Contents()| + Pad(|e.Contents()|)) % 8 == 0
    ensures Pad(|e.Contents()|) <= 7 && Enc(0, Pad(|e.Contents()|)) == Enc(0, (8 - e.bitsCount % 8) % 8)
  {
    PadIs(e);
    hide BytesToBits, Enc, Payload;
  }

  lemma FreePos(e: BitWriter)
    ensures e.Free() == 8 * e.buffer.Length - 8 * e.pos - e.bitsCount
    ensures e.Valid() ==> e.pos <= e.buffer.Length && e.bitsCount <= 32
  {}

  lemma ModLess(n: nat)
    ensures n % 8 < 8
  {}

  lemma EmptyPending(e: BitWriter)
    requires e.Valid() && e.bitsCount < 8 && |e.Contents()| % 8 == 0
    ensures e.bitsCount == 0 && e.Contents() == BytesToBits(e.buffer[..e.pos])
  {}

  lemma Emptied(e: BitWriter)
    requires e.pos == 0 && e.bitsCount == 0
    ensures e.Valid() && e.Contents() == [] && e.Free() == 8 * e.buffer.Length
  {}

  lemma BlockIs(key: (Byte, Byte), data: seq<Byte>)
    requires |data| <= AUDIO_LIMIT && Fits(|data| + 2, true, 9)
    ensures BytesToBits([key.0] + ([key.1] + SizeCode(|data| + 2, true)) + data) == FramedBits(key, data)
  {
    FramedIs(key, data);
    HeaderIs(key, |data|);
    hide *;
    BytesConcat([key.0] + ([key.1] + SizeCode(|data| + 2, true)), data);
  }

  // ----- appending to runs and streams -----

  lemma {:induction false} RunSnoc(b: Books, msOn: bool, maxBand: nat, key: bool, m: EncMem, fs: seq<Frame>, f: Frame)
    requires BooksValid(b) && maxBand < 32 && EncMemOk(m) && FramesOk(fs) && FrameOk(f)
    ensures FramesOk(fs + [f])
    ensures var n := RunEnc(maxBand, key, m, fs);
            && EncMemOk(n) && EncMemOk(EncNext(n, f, key && fs == [], maxBand))
            && RunBits(b, msOn, maxBand, key, m, fs + [f])
               == RunBits(b, msOn, maxBand, key, m, fs) + FrameBits(b, msOn, maxBand, key && fs == [], n, f)
            && RunEnc(maxBand, key, m, fs + [f]) == EncNext(n, f, key && fs == [], maxBand)
    decreases |fs|
  {
    hide *;
    SnocOk(fs, f);
    if fs == [] {
      assert fs + [f] == [f];
      RunOne(b, msOn, maxBand, key, m, f);
    } else {
      RunStep(b, msOn, maxBand, key, m, fs);
      var m1 := EncNext(m, fs[0], key, maxBand);
      RunStep(b, msOn, maxBand, key, m, fs + [f]);
      assert (fs + [f])[1..] == fs[1..] + [f];
      RunSnoc(b, msOn, maxBand, false, m1, fs[1..], f);
      Assoc(FrameBits(b, msOn, maxBand, key, m, fs[0]), RunBits(b, msOn, maxBand, false, m1, fs[1..]),
            FrameBits(b, msOn, maxBand, false, RunEnc(maxBand, key, m, fs), f));
    }
  }

  lemma SnocOk(fs: seq<Frame>, f: Frame)
    requires FramesOk(fs) && FrameOk(f)
    ensures FramesOk(fs + [f])
  {
    hide FrameOk;
  }

  lemma RunOne(b: Books, msOn: bool, maxBand: nat, key: bool, m: EncMem, f: Frame)
    requires BooksValid(b) && maxBand < 32 && EncMemOk(m) && FrameOk(f)
    ensures FramesOk([f]) && FramesOk([])
    ensures RunEnc(maxBand, key, m, []) == m && RunBits(b, msOn, maxBand, key, m, []) == []
    ensures EncMemOk(EncNext(m, f, key, maxBand))
    ensures RunEnc(maxBand, key, m, [f]) == EncNext(m, f, key, maxBand)
    ensures RunBits(b, msOn, maxBand, key, m, [f]) == [] + FrameBits(b, msOn, maxBand, key, m, f)
  {
    hide FrameBits, EncNext, FrameOk, EncMemOk, BooksValid;
    assert [f][1..] == [];
    var n := EncNext(m, f, key, maxBand);
    assert RunBits(b, msOn, maxBand, false, n, []) == [];
  }

  lemma RunStep(b: Books, msOn: bool, maxBand: nat, key: bool, m: EncMem, fs: seq<Frame>)
    requires BooksValid(b) && maxBand < 32 && EncMemOk(m) && FramesOk(fs) && fs != []
    ensures FrameOk(fs[0]) && FramesOk(fs[1..]) && EncMemOk(EncNext(m, fs[0], key, maxBand))
    ensures RunBits(b, msOn, maxBand, key, m, fs)
         == FrameBits(b, msOn, maxBand, key, m, fs[0]) + RunBits(b, msOn, maxBand, false, EncNext(m, fs[0], key, maxBand), fs[1..])
    ensures RunEnc(maxBand, key, m, fs) == RunEnc(maxBand, false, EncNext(m, fs[0], key, maxBand), fs[1..])
  {
    hide FrameBits, EncNext, FrameOk, EncMemOk, BooksValid;
  }

  /** Every block so far is full, so another may follow. */
  ghost predicate AllFull(full: nat, gs: seq<Group>)
  {
    forall i :: 0 <= i < |gs| ==> |gs[i].frames| == full && FramesOk(gs[i].frames)
  }

  /** The encoder's memory after some blocks. */
  ghost function MemAfter(maxBand: nat, m: EncMem, gs: seq<Group>): (n: EncMem)
    requires maxBand < 32 && EncMemOk(m) && forall i :: 0 <= i < |gs| ==> FramesOk(gs[i].frames)
    ensures EncMemOk(n)
    decreases |gs|
  {
    if gs == [] then m else MemAfter(maxBand, RunEnc(maxBand, true, m, gs[0].frames), gs[1..])
  }

  lemma NoMem(maxBand: nat, m: EncMem)
    requires maxBand < 32 && EncMemOk(m)
    ensures MemAfter(maxBand, m, []) == m
  {}

  /** One group that fits after the others. */
  ghost predicate GroupFits(b: Books, msOn: bool, maxBand: nat, full: nat, m: EncMem, g: Group)
    requires BooksValid(b) && maxBand < 32 && EncMemOk(m)
  {
    && FramesOk(g.frames) && 1 <= |g.frames| <= full && g.before == []
    && |Payload(RunBits(b, msOn, maxBand, true, m, g.frames))| <= AUDIO_LIMIT
  }

  lemma OneGroup(b: Books, msOn: bool, maxBand: nat, full: nat, m: EncMem, g: Group)
    requires BooksValid(b) && maxBand < 32 && EncMemOk(m) && GroupFits(b, msOn, maxBand, full, m, g)
    ensures GroupsOk(b, msOn, maxBand, full, m, [g]) && GroupsOk(b, msOn, maxBand, full, m, [])
    ensures FramesOk(g.frames) && |Payload(RunBits(b, msOn, maxBand, true, m, g.frames))| <= AUDIO_LIMIT
    ensures MemAfter(maxBand, m, []) == m && MemAfter(maxBand, m, [g]) == RunEnc(maxBand, true, m, g.frames)
    ensures StreamBits(b, msOn, maxBand, full, m, []) == []
    ensures StreamBits(b, msOn, maxBand, full, m, [g])
         == FramedBits(AP, Payload(RunBits(b, msOn, maxBand, true, m, g.frames)))
    ensures AllFrames([g]) == g.frames && AllFrames([]) == []
  {
    hide FramedBits, Payload, RunBits, RunEnc, BooksValid, EncMemOk, FrameOk;
    var n := RunEnc(maxBand, true, m, g.frames);
    assert [g][1..] == [];
    assert GroupsOk(b, msOn, maxBand, full, n, []);
    NoExtras();
    assert StreamBits(b, msOn, maxBand, full, n, []) == [];
  }

  lemma GroupsStep(b: Books, msOn: bool, maxBand: nat, full: nat, m: EncMem, gs: seq<Group>)
    requires BooksValid(b) && maxBand < 32 && EncMemOk(m) && gs != [] && FramesOk(gs[0].frames)
    ensures EncMemOk(RunEnc(maxBand, true, m, gs[0].frames))
    ensures GroupsOk(b, msOn, maxBand, full, m, gs)
       <==> (&& 1 <= |gs[0].frames| <= full && (|gs| > 1 ==> |gs[0].frames| == full)
             && (forall i :: 0 <= i < |gs[0].before| ==> ExtraOk(gs[0].before[i]))
             && |Payload(RunBits(b, msOn, maxBand, true, m, gs[0].frames))| <= AUDIO_LIMIT
             && GroupsOk(b, msOn, maxBand, full, RunEnc(maxBand, true, m, gs[0].frames), gs[1..]))
    ensures (forall i :: 0 <= i < |gs| ==> FramesOk(gs[i].frames)) ==>
              (forall i :: 0 <= i < |gs[1..]| ==> FramesOk(gs[1..][i].frames))
              && MemAfter(maxBand, m, gs) == MemAfter(maxBand, RunEnc(maxBand, true, m, gs[0].frames), gs[1..])
    ensures AllFrames(gs) == gs[0].frames + AllFrames(gs[1..])
  {
    hide Payload, RunBits, RunEnc, BooksValid, EncMemOk, FrameOk, ExtraOk;
  }

  lemma FullParts(full: nat, gs: seq<Group>, g: Group)
    requires AllFull(full, gs) && FramesOk(g.frames) && gs != []
    ensures |gs[0].frames| == full && FramesOk(gs[0].frames) && AllFull(full, gs[1..])
    ensures (forall i :: 0 <= i < |gs| ==> FramesOk(gs[i].frames))
    ensures (forall i :: 0 <= i < |gs + [g]| ==> FramesOk((gs + [g])[i].frames))
    ensures (gs + [g])[1..] == gs[1..] + [g] && (gs + [g])[0] == gs[0]
  {
    hide FramesOk;
  }

  lemma {:induction false} StreamSnoc(b: Books, msOn: bool, maxBand: nat, full: nat, m: EncMem, gs: seq<Group>, g: Group)
    requires BooksValid(b) && maxBand < 32 && EncMemOk(m) && full >= 1
    requires GroupsOk(b, msOn, maxBand, full, m, gs) && AllFull(full, gs)
    requires (forall i :: 0 <= i < |gs| ==> FramesOk(gs[i].frames)) && EncMemOk(MemAfter(maxBand, m, gs))
    requires GroupFits(b, msOn, maxBand, full, MemAfter(maxBand, m, gs), g) && FramesOk(g.frames)
    requires |Payload(RunBits(b, msOn, maxBand, true, MemAfter(maxBand, m, gs), g.frames))| <= AUDIO_LIMIT
    ensures GroupsOk(b, msOn, maxBand, full, m, gs + [g])
    ensures StreamBits(b, msOn, maxBand, full, m, gs + [g])
         == StreamBits(b, msOn, maxBand, full, m, gs)
            + FramedBits(AP, Payload(RunBits(b, msOn, maxBand, true, MemAfter(maxBand, m, gs), g.frames)))
    ensures (forall i :: 0 <= i < |gs + [g]| ==> FramesOk((gs + [g])[i].frames))
    ensures MemAfter(maxBand, m, gs + [g]) == RunEnc(maxBand, true, MemAfter(maxBand, m, gs), g.frames)
    ensures AllFrames(gs + [g]) == AllFrames(gs) + g.frames
    decreases |gs|
  {
    hide *;
    if gs == [] {
      NoMem(maxBand, m);
      OneGroup(b, msOn, maxBand, full, m, g);
      assert gs + [g] == [g];
    } else {
      FullParts(full, gs, g);
      GroupsStep(b, msOn, maxBand, full, m, gs);
      GroupsStep(b, msOn, maxBand, full, m, gs + [g]);
      var n := RunEnc(maxBand, true, m, gs[0].frames);
      StreamSnoc(b, msOn, maxBand, full, n, gs[1..], g);
      StreamStep(b, msOn, maxBand, full, m, gs, []);
      StreamStep(b, msOn, maxBand, full, m, gs + [g], []);
      var x, y, z := ExtraBits(gs[0].before), FramedBits(AP, Payload(RunBits(b, msOn, maxBand, true, m, gs[0].frames))),
                     StreamBits(b, msOn, maxBand, full, n, gs[1..]);
      var w := FramedBits(AP, Payload(RunBits(b, msOn, maxBand, true, MemAfter(maxBand, m, gs), g.frames)));
      NoBits(z);
      NoBits(z + w);
      NoBits(StreamBits(b, msOn, maxBand, full, m, gs));
      NoBits(StreamBits(b, msOn, maxBand, full, m, gs + [g]));
      Assoc(x, y + z, w);
      Assoc(y, z, w);
      Assoc(gs[0].frames, AllFrames(gs[1..]), g.frames);
    }
  }

  /** Appending a block does not move the earlier ones; the new one begins where the stream ended. */
  lemma {:induction false} OffsetSnoc(b: Books, msOn: bool, maxBand: nat, full: nat, m: EncMem, gs: seq<Group>, g: Group, j: nat)
    requires BooksValid(b) && maxBand < 32 && EncMemOk(m) && j <= |gs|
    requires GroupsOk(b, msOn, maxBand, full, m, gs) && GroupsOk(b, msOn, maxBand, full, m, gs + [g])
    ensures BlockOffset(b, msOn, maxBand, full, m, gs + [g], j) == BlockOffset(b, msOn, maxBand, full, m, gs, j)
    ensures BlockOffset(b, msOn, maxBand, full, m, gs, |gs|) == |StreamBits(b, msOn, maxBand, full, m, gs)|
    decreases |gs|
  {
    hide *;
    BlockOffsetNone(b, msOn, maxBand, full, m, gs);
    BlockOffsetNone(b, msOn, maxBand, full, m, gs + [g]);
    if gs == [] {
      NoStream(b, msOn, maxBand, full, m);
    } else {
      StreamStep(b, msOn, maxBand, full, m, gs, []);
      NoBits(StreamBits(b, msOn, maxBand, full, m, gs));
      BlockOffsetStep(b, msOn, maxBand, full, m, gs, |gs|);
      if j > 0 {
        BlockOffsetStep(b, msOn, maxBand, full, m, gs, j);
        BlockOffsetStep(b, msOn, maxBand, full, m, gs + [g], j);
      } else {
        BlockOffsetStep(b, msOn, maxBand, full, m, gs + [g], 1);
      }
      assert (gs + [g])[1..] == gs[1..] + [g] && (gs + [g])[0] == gs[0];
      var n := RunEnc(maxBand, true, m, gs[0].frames);
      OffsetSnoc(b, msOn, maxBand, full, n, gs[1..], g, if j > 0 then j - 1 else 0);
      NoBits(StreamBits(b, msOn, maxBand, full, n, gs[1..]));
    }
  }

  lemma NoStream(b: Books, msOn: bool, maxBand: nat, full: nat, m: EncMem)
    requires BooksValid(b) && maxBand < 32 && EncMemOk(m) && GroupsOk(b, msOn, maxBand, full, m, [])
    ensures StreamBits(b, msOn, maxBand, full, m, []) == []
  {}

  // ----- the encoder over a stream -----

  /** Rounding up. */
  function Slots(n: nat, step: nat): nat
    requires step >= 1
  {
    (n + step - 1) / step
  }

  lemma DivBounds(a: nat, b: nat, q: nat)
    requires b >= 1 && q * b <= a < q * b + b
    ensures a / b == q
  {
    var r := a - q * b;
    assert a == q * b + r;
    DivUnique(a, b, q, r);
  }

  lemma {:induction false} DivUnique(a: nat, b: nat, q: nat, r: nat)
    requires b >= 1 && a == q * b + r && r < b
    ensures a / b == q && a % b == r
  {
    var q1, r1 := a / b, a % b;
    assert a == q1 * b + r1;
    if q1 < q { Distrib(q, q1, b); assert false; }
    if q1 > q { Distrib(q1, q, b); assert false; }
  }

  lemma Distrib(x: nat, y: nat, b: nat)
    requires x > y
    ensures x * b >= y * b + b
  {
    MulPlus(x - y, y, b);
    MulAtLeast(x - y, b);
  }

  lemma MulPlus(d: nat, y: nat, b: nat)
    ensures (d + y) * b == d * b + y * b
  {}

  lemma {:induction false} MulAtLeast(d: nat, b: nat)
    requires d >= 1
    ensures d * b >= b
  {
    if d > 1 {
      MulAtLeast(d - 1, b);
      MulPlus(d - 1, 1, b);
    }
  }

  /** The table grows by one slot exactly at multiples of the step. */
  lemma SlotStep(n: nat, step: nat)
    requires step >= 1
    ensures n % step == 0 ==> Slots(n, step) == n / step && Slots(n + 1, step) == n / step + 1
    ensures n % step != 0 ==> Slots(n + 1, step) == Slots(n, step)
  {
    var q, r := n / step, n % step;
    assert n == q * step + r;
    assert (q + 1) * step == q * step + step;
    assert (q + 2) * step == q * step + step + step;
    if r == 0 {
      DivBounds(n + step - 1, step, q);
      DivBounds(n + step, step, q + 1);
    } else {
      DivBounds(n + step - 1, step, q + 1);
      DivBounds(n + step, step, q + 1);
    }
  }

  /** An entry for every multiple of the step, holding where that block begins. */
  ghost predicate Indexed(table: seq<nat>, starts: seq<nat>, step: nat)
    requires step >= 1
  {
    && |table| == Slots(|starts|, step)
    && forall j :: 0 <= j < |starts| && j % step == 0 ==> 0 <= j / step < |table| && table[j / step] == starts[j]
  }

  lemma IndexedSnoc(table: seq<nat>, starts: seq<nat>, step: nat, at: nat)
    requires step >= 1 && Indexed(table, starts, step)
    ensures Indexed(if |starts| % step == 0 then table + [at] else table, starts + [at], step)
  {
    SlotStep(|starts|, step);
    hide Slots;
    var t, s := if |starts| % step == 0 then table + [at] else table, starts + [at];
    forall j | 0 <= j < |s| && j % step == 0 ensures 0 <= j / step < |t| && t[j / step] == s[j] {
      if j < |starts| { assert s[j] == starts[j]; }
    }
  }

  /** Where every block of the stream begins, in bytes of the file. */
  ghost predicate StartsAt(b: Books, msOn: bool, maxBand: nat, full: nat, m: EncMem, gs: seq<Group>, base: nat, starts: seq<nat>)
    requires BooksValid(b) && maxBand < 32 && EncMemOk(m) && GroupsOk(b, msOn, maxBand, full, m, gs)
  {
    |starts| == |gs|
    && forall j :: 0 <= j < |gs| ==> 8 * starts[j] == 8 * base + BlockOffset(b, msOn, maxBand, full, m, gs, j)
  }

  /** What has been encoded so far, and the encoder's own memory at its start. */
  datatype Log = Log(base: seq<Byte>, start: EncMem, done: seq<Group>, pending: seq<Frame>, starts: seq<nat>)

  /** The output is the stream of the finished blocks, and the table indexes it. */
  ghost predicate Stored(b: Books, msOn: bool, maxBand: nat, full: nat, step: nat, log: Log, output: seq<Byte>, table: seq<nat>)
  {
    && BooksValid(b) && maxBand < 32 && full >= 1 && step >= 1
    && EncMemOk(log.start) && GroupsOk(b, msOn, maxBand, full, log.start, log.done)
    && BytesToBits(output) == BytesToBits(log.base) + StreamBits(b, msOn, maxBand, full, log.start, log.done)
    && StartsAt(b, msOn, maxBand, full, log.start, log.done, |log.base|, log.starts)
    && Indexed(table, log.starts, step)
  }

  /** Besides, all of them are full, and the frames of the open block are in the writer. */
  ghost predicate Written(b: Books, msOn: bool, maxBand: nat, full: nat, step: nat, log: Log,
                          output: seq<Byte>, table: seq<nat>, open: Bits, mem: EncMem)
  {
    && Stored(b, msOn, maxBand, full, step, log, output, table)
    && AllFull(full, log.done) && FramesOk(log.pending) && |log.pending| <= full
    && (forall i :: 0 <= i < |log.done| ==> FramesOk(log.done[i].frames))
    && open == RunBits(b, msOn, maxBand, true, MemAfter(maxBand, log.start, log.done), log.pending)
    && mem == RunEnc(maxBand, true, MemAfter(maxBand, log.start, log.done), log.pending)
  }

  function Encoded(log: Log): seq<Frame> { AllFrames(log.done) + log.pending }

  lemma WrittenParts(b: Books, msOn: bool, maxBand: nat, full: nat, step: nat, log: Log,
                     output: seq<Byte>, table: seq<nat>, open: Bits, mem: EncMem)
    requires Written(b, msOn, maxBand, full, step, log, output, table, open, mem)
    ensures BooksValid(b) && maxBand < 32 && full >= 1 && step >= 1 && EncMemOk(log.start)
    ensures Stored(b, msOn, maxBand, full, step, log, output, table)
    ensures AllFull(full, log.done) && FramesOk(log.pending) && |log.pending| <= full
    ensures (forall i :: 0 <= i < |log.done| ==> FramesOk(log.done[i].frames))
    ensures var n := MemAfter(maxBand, log.start, log.done);
            && EncMemOk(n) && open == RunBits(b, msOn, maxBand, true, n, log.pending)
            && mem == RunEnc(maxBand, true, n, log.pending) && EncMemOk(mem)
  {
    hide BooksValid, AllFull, FramesOk, MemAfter, RunBits, RunEnc, GroupsOk, StreamBits, StartsAt, Indexed, EncMemOk;
  }

  lemma StoredParts(b: Books, msOn: bool, maxBand: nat, full: nat, step: nat, log: Log, output: seq<Byte>, table: seq<nat>)
    requires Stored(b, msOn, maxBand, full, step, log, output, table)
    ensures BooksValid(b) && maxBand < 32 && full >= 1 && step >= 1 && EncMemOk(log.start)
    ensures GroupsOk(b, msOn, maxBand, full, log.start, log.done)
    ensures BytesToBits(output) == BytesToBits(log.base) + StreamBits(b, msOn, maxBand, full, log.start, log.done)
    ensures StartsAt(b, msOn, maxBand, full, log.start, log.done, |log.base|, log.starts)
    ensures Indexed(table, log.starts, step)
  {
    hide BooksValid, GroupsOk, StreamBits, StartsAt, Indexed, EncMemOk, BytesToBits;
  }

  lemma WrittenIs(b: Books, msOn: bool, maxBand: nat, full: nat, step: nat, log: Log,
                  output: seq<Byte>, table: seq<nat>, open: Bits, mem: EncMem)
    requires Stored(b, msOn, maxBand, full, step, log, output, table)
    requires BooksValid(b) && maxBand < 32 && EncMemOk(log.start)
    requires AllFull(full, log.done) && FramesOk(log.pending) && |log.pending| <= full
    requires (forall i :: 0 <= i < |log.done| ==> FramesOk(log.done[i].frames))
    requires EncMemOk(MemAfter(maxBand, log.start, log.done))
    requires open == RunBits(b, msOn, maxBand, true, MemAfter(maxBand, log.start, log.done), log.pending)
    requires mem == RunEnc(maxBand, true, MemAfter(maxBand, log.start, log.done), log.pending)
    ensures Written(b, msOn, maxBand, full, step, log, output, table, open, mem)
  {
    hide BooksValid, AllFull, FramesOk, MemAfter, RunBits, RunEnc, GroupsOk, StreamBits, StartsAt, Indexed, EncMemOk, Stored;
  }

  lemma StoredSame(b: Books, msOn: bool, maxBand: nat, full: nat, step: nat, log: Log, log1: Log, output: seq<Byte>, table: seq<nat>)
    requires Stored(b, msOn, maxBand, full, step, log, output, table)
    requires log1.base == log.base && log1.start == log.start && log1.done == log.done && log1.starts == log.starts
    ensures Stored(b, msOn, maxBand, full, step, log1, output, table)
  {
    hide BooksValid, GroupsOk, StreamBits, StartsAt, Indexed, EncMemOk, BytesToBits;
  }

  /** One more frame in the open block. */
  lemma PutStep(b: Books, msOn: bool, maxBand: nat, full: nat, step: nat, log: Log,
                output: seq<Byte>, table: seq<nat>, open: Bits, mem: EncMem, f: Frame)
    requires Written(b, msOn, maxBand, full, step, log, output, table, open, mem) && |log.pending| < full && FrameOk(f)
    requires BooksValid(b) && maxBand < 32 && EncMemOk(mem)
    ensures var key := log.pending == [];
            EncMemOk(EncNext(mem, f, key, maxBand))
            && Written(b, msOn, maxBand, full, step, log.(pending := log.pending + [f]), output, table,
                       open + FrameBits(b, msOn, maxBand, key, mem, f), EncNext(mem, f, key, maxBand))
            && Encoded(log.(pending := log.pending + [f])) == Encoded(log) + [f]
  {
    hide *;
    WrittenParts(b, msOn, maxBand, full, step, log, output, table, open, mem);
    RunSnoc(b, msOn, maxBand, true, MemAfter(maxBand, log.start, log.done), log.pending, f);
    var log1 := log.(pending := log.pending + [f]);
    StoredSame(b, msOn, maxBand, full, step, log, log1, output, table);
    WrittenIs(b, msOn, maxBand, full, step, log1, output, table,
              open + FrameBits(b, msOn, maxBand, log.pending == [], mem, f), EncNext(mem, f, log.pending == [], maxBand));
    EncodedIs(log);
    EncodedIs(log1);
    Assoc(AllFrames(log.done), log.pending, [f]);
  }

  lemma EncodedIs(log: Log)
    ensures Encoded(log) == AllFrames(log.done) + log.pending
  {}

  /** The log once the open block has been written at byte `at`. */
  function Closed(log: Log, at: nat): Log
  {
    Log(log.base, log.start, log.done + [Group([], log.pending)], [], log.starts + [at])
  }

  /** The seek table once block `|log.done|` has begun at byte `at`. */
  function NextTable(table: seq<nat>, log: Log, step: nat, at: nat): seq<nat>
    requires step >= 1
  {
    if |log.done| % step == 0 then table + [at] else table
  }

  lemma NextTableIs(table: seq<nat>, log: Log, step: nat, at: nat)
    requires step >= 1
    ensures NextTable(table, log, step, at) == if |log.done| % step == 0 then table + [at] else table
  {}

  lemma StartsSnoc(b: Books, msOn: bool, maxBand: nat, full: nat, m: EncMem, gs: seq<Group>, g: Group, base: nat,
                   starts: seq<nat>, at: nat)
    requires BooksValid(b) && maxBand < 32 && EncMemOk(m)
    requires GroupsOk(b, msOn, maxBand, full, m, gs) && GroupsOk(b, msOn, maxBand, full, m, gs + [g])
    requires StartsAt(b, msOn, maxBand, full, m, gs, base, starts)
    requires 8 * at == 8 * base + |StreamBits(b, msOn, maxBand, full, m, gs)|
    ensures StartsAt(b, msOn, maxBand, full, m, gs + [g], base, starts + [at])
  {
    hide BooksValid, EncMemOk, GroupsOk, StreamBits, BlockOffset;
    forall j | 0 <= j <= |gs|
      ensures 8 * (starts + [at])[j] == 8 * base + BlockOffset(b, msOn, maxBand, full, m, gs + [g], j)
    {
      OffsetSnoc(b, msOn, maxBand, full, m, gs, g, j);
    }
  }

  lemma GroupFitsIs(b: Books, msOn: bool, maxBand: nat, full: nat, m: EncMem, g: Group)
    requires BooksValid(b) && maxBand < 32 && EncMemOk(m) && FramesOk(g.frames) && 1 <= |g.frames| <= full && g.before == []
    requires |Payload(RunBits(b, msOn, maxBand, true, m, g.frames))| <= AUDIO_LIMIT
    ensures GroupFits(b, msOn, maxBand, full, m, g)
  {
    hide BooksValid, EncMemOk, FramesOk, RunBits;
  }

  lemma StoredIs(b: Books, msOn: bool, maxBand: nat, full: nat, step: nat, log: Log, output: seq<Byte>, table: seq<nat>)
    requires BooksValid(b) && maxBand < 32 && full >= 1 && step >= 1 && EncMemOk(log.start)
    requires GroupsOk(b, msOn, maxBand, full, log.start, log.done)
    requires BytesToBits(output) == BytesToBits(log.base) + StreamBits(b, msOn, maxBand, full, log.start, log.done)
    requires StartsAt(b, msOn, maxBand, full, log.start, log.done, |log.base|, log.starts)
    requires Indexed(table, log.starts, step)
    ensures Stored(b, msOn, maxBand, full, step, log, output, table)
  {
    hide BooksValid, GroupsOk, StreamBits, StartsAt, Indexed, EncMemOk, BytesToBits;
  }

  lemma FullSnoc(full: nat, gs: seq<Group>, g: Group)
    requires AllFull(full, gs) && FramesOk(g.frames) && |g.frames| == full
    ensures AllFull(full, gs + [g])
  {
    hide FramesOk;
  }

  lemma StartsCount(b: Books, msOn: bool, maxBand: nat, full: nat, m: EncMem, gs: seq<Group>, base: nat, starts: seq<nat>)
    requires BooksValid(b) && maxBand < 32 && EncMemOk(m) && GroupsOk(b, msOn, maxBand, full, m, gs)
    requires StartsAt(b, msOn, maxBand, full, m, gs, base, starts)
    ensures |starts| == |gs|
  {}

  /** Writing the open block out, indexed if its number is a multiple of the step. */
  lemma CloseStep(b: Books, msOn: bool, maxBand: nat, full: nat, step: nat, log: Log,
                  output: seq<Byte>, table: seq<nat>, open: Bits, mem: EncMem, block: seq<Byte>)
    requires Written(b, msOn, maxBand, full, step, log, output, table, open, mem) && log.pending != [] && step >= 1
    requires |Payload(open)| <= AUDIO_LIMIT && BytesToBits(block) == FramedBits(AP, Payload(open))
    ensures Stored(b, msOn, maxBand, full, step, Closed(log, |output|), output + block, NextTable(table, log, step, |output|))
    ensures |log.pending| == full ==>
              Written(b, msOn, maxBand, full, step, Closed(log, |output|), output + block, NextTable(table, log, step, |output|),
                      [], mem)
    ensures Encoded(Closed(log, |output|)) == Encoded(log)
  {
    hide *;
    WrittenParts(b, msOn, maxBand, full, step, log, output, table, open, mem);
    StoredParts(b, msOn, maxBand, full, step, log, output, table);
    StartsCount(b, msOn, maxBand, full, log.start, log.done, |log.base|, log.starts);
    var g, n := Group([], log.pending), MemAfter(maxBand, log.start, log.done);
    GroupFitsIs(b, msOn, maxBand, full, n, g);
    StreamSnoc(b, msOn, maxBand, full, log.start, log.done, g);
    StartsSnoc(b, msOn, maxBand, full, log.start, log.done, g, |log.base|, log.starts, |output|);
    IndexedSnoc(table, log.starts, step, |output|);
    BytesConcat(output, block);
    Assoc(BytesToBits(log.base), StreamBits(b, msOn, maxBand, full, log.start, log.done), FramedBits(AP, Payload(open)));
    var log1 := Closed(log, |output|);
    ClosedIs(log, |output|);
    var table1 := NextTable(table, log, step, |output|);
    NextTableIs(table, log, step, |output|);
    StoredIs(b, msOn, maxBand, full, step, log1, output + block, table1);
    EncodedIs(log);
    EncodedIs(log1);
    NoBits2(AllFrames(log1.done));
    if |log.pending| == full {
      FullSnoc(full, log.done, g);
      RunNil(b, msOn, maxBand, MemAfter(maxBand, log1.start, log1.done));
      WrittenIs(b, msOn, maxBand, full, step, log1, output + block, table1, [], mem);
    }
  }

  lemma NoBits2(s: seq<Frame>)
    ensures s + [] == s
  {}

  lemma ClosedIs(log: Log, at: nat)
    ensures Closed(log, at) == Log(log.base, log.start, log.done + [Group([], log.pending)], [], log.starts + [at])
  {}

  lemma RunNil(b: Books, msOn: bool, maxBand: nat, m: EncMem)
    requires BooksValid(b) && maxBand < 32 && EncMemOk(m)
    ensures FramesOk([]) && RunBits(b, msOn, maxBand, true, m, []) == [] && RunEnc(maxBand, true, m, []) == m
  {}

  // ----- what a decoder makes of it -----

  /** Decoding the file from the first block on returns every encoded frame; jumping to the entry of the seek
      table for block `j` returns every frame from that block on; both with any memory of the decoder, and
      whatever follows in the file. */
  lemma StoredDecodes(b: Books, msOn: bool, maxBand: nat, full: nat, step: nat, log: Log, output: seq<Byte>, table: seq<nat>,
                      d: DecMem, j: nat, rest: seq<Byte>) returns (ds: seq<DecMem>, end: Bits, es: seq<DecMem>, stop: Bits)
    requires Stored(b, msOn, maxBand, full, step, log, output, table) && DecMemOk(d)
    requires j < |log.done| && step >= 1 && j % step == 0 && BooksValid(b) && maxBand < 32 && full >= 1
    ensures 0 <= j / step < |table| && table[j / step] <= |output| && |log.base| <= |output|
    ensures var file := output + rest;
            && StreamDec(b, msOn, maxBand, full, d, |AllFrames(log.done)|, BytesToBits(file[|log.base|..])) == Got(ds, end)
            && AllRecovers(msOn, maxBand, AllFrames(log.done), ds)
            && StreamDec(b, msOn, maxBand, full, d, |AllFrames(log.done[j..])|, BytesToBits(file[table[j / step]..])) == Got(es, stop)
            && AllRecovers(msOn, maxBand, AllFrames(log.done[j..]), es)
  {
    hide *;
    StoredParts(b, msOn, maxBand, full, step, log, output, table);
    IndexedAt(b, msOn, maxBand, full, log, table, step, j);
    var s, x := StreamBits(b, msOn, maxBand, full, log.start, log.done), BytesToBits(log.base);
    var file, tail, at := output + rest, BytesToBits(rest), table[j / step];
    BytesConcat(output, rest);
    Assoc(x, s, tail);
    TakePrefix(x, s + tail);
    ds, end := StreamRoundTrip(b, msOn, maxBand, full, log.start, d, log.done, tail);
    es, stop := JoinAtBlock(b, msOn, maxBand, full, log.start, d, log.done, j, tail);
    var off := BlockOffset(b, msOn, maxBand, full, log.start, log.done, j);
    OffsetWithin(b, msOn, maxBand, full, log.start, log.done, j);
    DropDrop(x + (s + tail), |x|, off);
    DropBytes(file, |log.base|);
    DropBytes(file, at);
  }

  lemma DropBytes(s: seq<Byte>, i: nat)
    requires i <= |s|
    ensures BytesToBits(s[i..]) == BytesToBits(s)[8 * i..]
  {
    hide *;
    BytesSlice(s, i, |s|);
    ToEnd(s, i);
    ToEnd(BytesToBits(s), 8 * i);
  }

  lemma ToEnd<T>(s: seq<T>, i: nat)
    requires i <= |s|
    ensures s[i..|s|] == s[i..]
  {}

  lemma IndexedAt(b: Books, msOn: bool, maxBand: nat, full: nat, log: Log, table: seq<nat>, step: nat, j: nat)
    requires BooksValid(b) && maxBand < 32 && EncMemOk(log.start) && GroupsOk(b, msOn, maxBand, full, log.start, log.done)
    requires StartsAt(b, msOn, maxBand, full, log.start, log.done, |log.base|, log.starts)
    requires step >= 1 && Indexed(table, log.starts, step) && j < |log.done| && j % step == 0
    ensures 0 <= j / step < |table|
    ensures 8 * table[j / step] == 8 * |log.base| + BlockOffset(b, msOn, maxBand, full, log.start, log.done, j)
  {
    hide BooksValid, EncMemOk, GroupsOk, BlockOffset, Slots;
    assert table[j / step] == log.starts[j];
  }

  lemma {:induction false} OffsetWithin(b: Books, msOn: bool, maxBand: nat, full: nat, m: EncMem, gs: seq<Group>, j: nat)
    requires BooksValid(b) && maxBand < 32 && EncMemOk(m) && GroupsOk(b, msOn, maxBand, full, m, gs) && j <= |gs|
    ensures BlockOffset(b, msOn, maxBand, full, m, gs, j) <= |StreamBits(b, msOn, maxBand, full, m, gs)|
    decreases j
  {
    hide *;
    BlockOffsetNone(b, msOn, maxBand, full, m, gs);
    if j > 0 {
      BlockOffsetStep(b, msOn, maxBand, full, m, gs, j);
      StreamStep(b, msOn, maxBand, full, m, gs, []);
      NoBits(StreamBits(b, msOn, maxBand, full, m, gs));
      var n := RunEnc(maxBand, true, m, gs[0].frames);
      NoBits(StreamBits(b, msOn, maxBand, full, n, gs[1..]));
      OffsetWithin(b, msOn, maxBand, full, n, gs[1..], j - 1);
    }
  }

  class StreamEncoder {
    const b: Books
    const msOn: bool
    const max: nat       // the stream's highest band
    const full: nat      // 1 << frames_per_block_pwr
    const step: nat      // 1 << seek_pwr
    const w: FrameEncoder
    var output: seq<Byte>
    var seekTable: seq<nat>
    var blockCnt: nat
    ghost var log: Log

    ghost predicate Valid()
      reads this, w, w.e, w.e.buffer
    {
      && w.Valid() && 8 * w.e.buffer.Length >= 7 && w.e.buffer.Length <= AUDIO_LIMIT
      && w.framesInBlock == |log.pending| < full && blockCnt == |log.done|
      && Written(b, msOn, max, full, step, log, output, seekTable, w.e.Contents(), w.Mem())
    }

    constructor (b: Books, msOn: bool, max: nat, full: nat, step: nat, w: FrameEncoder, base: seq<Byte>)
      requires BooksValid(b) && max < 32 && full >= 1 && step >= 1 && w.Valid() && w.framesInBlock == 0 && w.e.Contents() == []
      requires 1 <= w.e.buffer.Length <= AUDIO_LIMIT
      ensures Valid() && log.base == base && Encoded(log) == [] && this.w == w
      ensures this.b == b && this.msOn == msOn && this.max == max && this.full == full && this.step == step
    {
      hide *;
      this.b, this.msOn, this.max, this.full, this.step, this.w := b, msOn, max, full, step, w;
      output, seekTable, blockCnt := base, [], 0;
      log := Log(base, w.Mem(), [], [], []);
      new;
      ValidParts(w);
      FreshLog(b, msOn, max, full, step, base, w.Mem());
      StreamValid(this);
    }

    /** Encodes one frame; a block that has become full is written out. */
    method Put(f: Frame)
      requires Valid() && FrameOk(f) && BooksValid(b) && max < 32 && w.Valid()
      requires w.e.Free() >= |FrameBits(b, msOn, max, w.framesInBlock == 0, w.Mem(), f)| + 7
      modifies this, w, w.e, w.e.buffer
      ensures Valid() && Encoded(log) == old(Encoded(log)) + [f] && log.base == old(log.base)
    {
      hide *;
      StreamParts(this);
      WrittenParts(b, msOn, max, full, step, log, output, seekTable, w.e.Contents(), w.Mem());
      PutStep(b, msOn, max, full, step, log, output, seekTable, w.e.Contents(), w.Mem(), f);
      EmptyRun(log.pending);
      w.WriteFrame(b, msOn, max, f);
      log := log.(pending := log.pending + [f]);
      ValidParts(w);
      if w.framesInBlock == full {
        CloseBlock();
        EmptyRun(log.pending);
      }
      ValidParts(w);
      StreamValid(this);
    }

    /** Writes the open block, as at the end of the stream. */
    method CloseBlock()
      requires w.Valid() && w.e.Valid() && w.e.Free() >= 7 && 8 * w.e.buffer.Length >= 7 && w.e.buffer.Length <= AUDIO_LIMIT
      requires w.framesInBlock == |log.pending| <= full && w.framesInBlock != 0 && blockCnt == |log.done|
      requires Written(b, msOn, max, full, step, log, output, seekTable, w.e.Contents(), w.Mem())
      modifies this, w`framesInBlock, w.e, w.e.buffer
      ensures w.Valid() && w.e.buffer == old(w.e.buffer) && w.framesInBlock == 0 && blockCnt == |log.done|
      ensures w.e.Contents() == [] && w.Mem() == old(w.Mem())
      ensures log.base == old(log.base) && log.pending == [] && Encoded(log) == old(Encoded(log))
      ensures Stored(b, msOn, max, full, step, log, output, seekTable)
      ensures old(|log.pending|) == full ==> Written(b, msOn, max, full, step, log, output, seekTable, [], w.Mem())
    {
      hide *;
      WrittenParts(b, msOn, max, full, step, log, output, seekTable, w.e.Contents(), w.Mem());
      ghost var open, m, at := w.e.Contents(), w.Mem(), |output|;
      PayloadFits(w.e);
      NextTableIs(seekTable, log, step, at);
      if blockCnt % step == 0 {
        seekTable := seekTable + [|output|];
      }
      blockCnt := blockCnt + 1;
      ghost var old_output, old_table, old_log := output, old(seekTable), log;
      MemIs(w);
      ValidParts(w);
      PlainData(open);
      DataIs(|Payload(open)|);
      var block := WriteBlock(w.e, AP, false, 0);
      output := output + block;
      w.framesInBlock := 0;
      MemIs(w);
      ValidIs(w);
      log := Closed(log, at);
      ClosedIs(old_log, at);
      CloseStep(b, msOn, max, full, step, old_log, old_output, old_table, open, m, block);
    }

    /** The end of the stream: a block left incomplete is written as it is. */
    method Finish()
      requires Valid() && w.e.Valid() && w.e.Free() >= 7
      modifies this, w, w.e, w.e.buffer
      ensures log.base == old(log.base) && AllFrames(log.done) == old(Encoded(log))
      ensures Stored(b, msOn, max, full, step, log, output, seekTable)
    {
      hide *;
      StreamParts(this);
      WrittenParts(b, msOn, max, full, step, log, output, seekTable, w.e.Contents(), w.Mem());
      if w.framesInBlock != 0 {
        CloseBlock();
      }
      EmptyRun(log.pending);
      EncodedIs(log);
      NoBits2(AllFrames(log.done));
    }
  }

  lemma EmptyRun(fs: seq<Frame>)
    ensures (|fs| == 0) == (fs == [])
  {}

  lemma PayloadFits(e: BitWriter)
    requires e.Valid() && e.Free() >= 7 && e.buffer.Length <= AUDIO_LIMIT
    ensures |Payload(e.Contents())| <= AUDIO_LIMIT && |Payload(e.Contents())| <= e.buffer.Length
  {
    hide BytesToBits, Enc, Payload;
  }

  lemma StreamParts(x: StreamEncoder)
    requires x.Valid()
    ensures x.w.Valid() && x.w.e.Valid() && 8 * x.w.e.buffer.Length >= 7 && x.w.e.buffer.Length <= AUDIO_LIMIT
    ensures x.w.framesInBlock == |x.log.pending| < x.full && x.blockCnt == |x.log.done|
    ensures Written(x.b, x.msOn, x.max, x.full, x.step, x.log, x.output, x.seekTable, x.w.e.Contents(), x.w.Mem())
  {
    hide Written;
  }

  lemma StreamValid(x: StreamEncoder)
    requires x.w.Valid() && x.w.e.Valid() && 8 * x.w.e.buffer.Length >= 7 && x.w.e.buffer.Length <= AUDIO_LIMIT
    requires x.w.framesInBlock == |x.log.pending| < x.full && x.blockCnt == |x.log.done|
    requires Written(x.b, x.msOn, x.max, x.full, x.step, x.log, x.output, x.seekTable, x.w.e.Contents(), x.w.Mem())
    ensures x.Valid()
  {
    hide Written;
  }

  lemma FreshLog(b: Books, msOn: bool, max: nat, full: nat, step: nat, base: seq<Byte>, m: EncMem)
    requires BooksValid(b) && max < 32 && full >= 1 && step >= 1 && EncMemOk(m)
    ensures Written(b, msOn, max, full, step, Log(base, m, [], [], []), base, [], [], m)
    ensures Encoded(Log(base, m, [], [], [])) == []
  {
    hide *;
    var log := Log(base, m, [], [], []);
    NoLog(b, msOn, max, full, m, |base|, step);
    NoStream(b, msOn, max, full, m);
    NoBits(BytesToBits(base));
    StoredIs(b, msOn, max, full, step, log, base, []);
    NoMem(max, m);
    RunNil(b, msOn, max, m);
    WrittenIs(b, msOn, max, full, step, log, base, [], [], m);
    EncodedIs(log);
    NoBits2([]);
  }

  lemma NoLog(b: Books, msOn: bool, max: nat, full: nat, m: EncMem, base: nat, step: nat)
    requires BooksValid(b) && max < 32 && EncMemOk(m) && step >= 1
    ensures GroupsOk(b, msOn, max, full, m, []) && StartsAt(b, msOn, max, full, m, [], base, [])
    ensures Indexed([], [], step) && AllFull(full, []) && AllFrames([]) == []
  {
    hide BooksValid, EncMemOk;
    DivBounds(step - 1, step, 0);
  }
}
