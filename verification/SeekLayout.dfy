/** The files the encoder writes are ones the seeker can work on, and its table is an index of them. */
module SeekLayout {
  import opened BitStrings
  import opened Integers
  import opened Sizes
  import opened Codebooks
  import opened Sv8Header
  import opened Sv8Frame
  import opened Sv8Memory
  import opened Sv8Stream
  import opened Sv8Blocks
  import opened Sv8StreamEncoding
  import opened SeekIndexing
  import opened Seeking
  import Programmes

  // ----- blocks one behind the other -----

  ghost predicate LaidFrom(stream: seq<Byte>, p: nat, bs: seq<Blk>)
    requires Sized(bs)
    decreases |bs|
  {
    bs == [] || (LiesAt(stream, p, bs[0]) && LaidFrom(stream, p + Length(bs[0]), bs[1..]))
  }

  ghost function Total(bs: seq<Blk>): nat
    requires Sized(bs)
  {
    if bs == [] then 0 else Length(bs[0]) + Total(bs[1..])
  }

  lemma {:induction false} AtShift(bs: seq<Blk>, p: nat, k: nat)
    requires Sized(bs) && k < |bs|
    ensures Sized(bs[1..]) && At(bs, p, k + 1) == At(bs[1..], p + Length(bs[0]), k)
    decreases k
  {
    hide HeaderOf;
    if k > 0 {
      AtShift(bs, p, k - 1);
      assert bs[1..][k - 1] == bs[k];
    }
  }

  lemma {:induction false} LaidFromIs(stream: seq<Byte>, p: nat, bs: seq<Blk>)
    requires Sized(bs) && LaidFrom(stream, p, bs)
    ensures Laid(stream, bs, p)
    decreases |bs|
  {
    hide HeaderOf, LiesAt, At;
    if bs != [] {
      var q := p + Length(bs[0]);
      LaidFromIs(stream, q, bs[1..]);
      forall k | 0 <= k < |bs| ensures LiesAt(stream, At(bs, p, k), bs[k]) {
        if k == 0 {
          AtFirst(bs, p);
        } else {
          AtShift(bs, p, k - 1);
          assert LiesAt(stream, At(bs[1..], q, k - 1), bs[1..][k - 1]);
        }
      }
    }
  }

  lemma AtFirst(bs: seq<Blk>, p: nat)
    requires Sized(bs)
    ensures At(bs, p, 0) == p
  {}

  lemma {:induction false} LaidConcat(stream: seq<Byte>, p: nat, a: seq<Blk>, b: seq<Blk>)
    requires Sized(a) && Sized(b) && LaidFrom(stream, p, a) && LaidFrom(stream, p + Total(a), b)
    ensures Sized(a + b) && LaidFrom(stream, p, a + b) && Total(a + b) == Total(a) + Total(b)
    decreases |a|
  {
    hide LiesAt, HeaderOf;
    if a == [] {
      assert a + b == b;
    } else {
      assert (a + b)[1..] == a[1..] + b;
      LaidConcat(stream, p + Length(a[0]), a[1..], b);
    }
  }

  /** Places in the second part, from the start of the first. */
  lemma {:induction false} AtConcat(a: seq<Blk>, b: seq<Blk>, p: nat, k: nat)
    requires Sized(a) && Sized(b) && k <= |b|
    ensures Sized(a + b) && At(a + b, p, |a| + k) == At(b, p + Total(a), k)
    decreases |a|
  {
    hide HeaderOf, At;
    if a == [] {
      assert a + b == b;
    } else {
      var c := a + b;
      assert c[1..] == a[1..] + b;
      AtConcat(a[1..], b, p + Length(a[0]), k);
      if |a| + k > 0 && |a| + k - 1 < |c| { AtShift(c, p, |a| + k - 1); }
    }
  }

  lemma {:induction false} AudiosConcat(a: seq<Blk>, b: seq<Blk>, k: nat)
    requires k <= |b|
    ensures Audios(a + b, |a| + k) == Audios(a, |a|) + Audios(b, k)
    decreases k
  {
    hide Audio;
    if k == 0 {
      AudiosFront(a, b, |a|);
    } else {
      AudiosConcat(a, b, k - 1);
      AudiosStep(b, k - 1);
      AudiosStep(a + b, |a| + k - 1);
    }
  }

  lemma {:induction false} AudiosFront(a: seq<Blk>, b: seq<Blk>, k: nat)
    requires k <= |a|
    ensures Audios(a + b, k) == Audios(a, k)
    decreases k
  {
    hide Audio;
    if k > 0 { AudiosFront(a, b, k - 1); }
  }

  // ----- blocks in a string of bits -----

  /** Bytes that begin with the bits of others begin with those. */
  lemma Front(tail: seq<Byte>, h: seq<Byte>, rest: Bits)
    requires BytesToBits(tail) == BytesToBits(h) + rest
    ensures |h| <= |tail| && tail[..|h|] == h && BytesToBits(tail[|h|..]) == rest
  {
    hide *;
    BytesLength(tail);
    BytesLength(h);
    TakePrefix(BytesToBits(h), rest);
    BytesSlice(tail, 0, |h|);
    BytesSlice(tail, |h|, |tail|);
    WholeSlices(tail, |h|);
    WholeSlices(BytesToBits(tail), 8 * |h|);
    BytesUnique(tail[..|h|], h);
  }

  lemma BytesLength(s: seq<Byte>)
    ensures |BytesToBits(s)| == 8 * |s|
  {}

  lemma WholeSlices<T>(s: seq<T>, n: nat)
    requires n <= |s|
    ensures s[0..n] == s[..n] && s[n..|s|] == s[n..]
  {}

  /** A framed block, followed by `rest`. */
  lemma LiesFirst(stream: seq<Byte>, p: nat, x: Blk, rest: Bits)
    requires p <= |stream| && |x.data| <= AUDIO_LIMIT && BytesToBits(stream[p..]) == FramedBits(x.key, x.data) + rest
    ensures LiesAt(stream, p, x) && p + Length(x) <= |stream| && 8 * Length(x) == |FramedBits(x.key, x.data)|
    ensures BytesToBits(stream[p + Length(x)..]) == rest
  {
    hide *;
    LimitFits(|x.data|);
    HeaderOfIs(x);
    FramedIs(x.key, x.data);
    var h, tail := HeaderOf(x), stream[p..];
    Assoc(BytesToBits(h), BytesToBits(x.data), rest);
    Front(tail, h, BytesToBits(x.data) + rest);
    Front(tail[|h|..], x.data, rest);
    BytesLength(h);
    BytesLength(x.data);
    LengthIs(x);
    TailSlices(stream, p, |h|, |x.data|);
    LiesMeans(stream, p, x);
  }

  lemma LengthIs(x: Blk)
    requires |x.data| <= AUDIO_LIMIT
    ensures Length(x) == |HeaderOf(x)| + |x.data|
  {
    hide HeaderOf;
  }

  lemma LiesMeans(stream: seq<Byte>, p: nat, x: Blk)
    requires |x.data| <= AUDIO_LIMIT
    ensures var h := HeaderOf(x);
            p + |h| + |x.data| <= |stream| && stream[p..p + |h|] == h && stream[p + |h|..p + |h| + |x.data|] == x.data
            ==> LiesAt(stream, p, x)
  {
    hide HeaderOf;
  }

  lemma TailSlices(s: seq<Byte>, p: nat, h: nat, n: nat)
    requires p + h + n <= |s|
    ensures s[p..][..h] == s[p..p + h] && s[p..][h..][..n] == s[p + h..p + h + n] && s[p..][h..][n..] == s[p + h + n..]
  {}

  // ----- the blocks of a stream -----

  ghost function ExtraBlks(xs: seq<Extra>): (bs: seq<Blk>)
    ensures |bs| == |xs| && forall i :: 0 <= i < |xs| ==> bs[i] == Blk(xs[i].key, xs[i].data)
  {
    if xs == [] then [] else [Blk(xs[0].key, xs[0].data)] + ExtraBlks(xs[1..])
  }

  lemma ExtraPasses(xs: seq<Extra>)
    requires forall i :: 0 <= i < |xs| ==> ExtraOk(xs[i])
    ensures Sized(ExtraBlks(xs)) && forall i :: 0 <= i < |xs| ==> Passable(ExtraBlks(xs)[i]) && !Audio(ExtraBlks(xs)[i])
  {
    forall i | 0 <= i < |xs| ensures |ExtraBlks(xs)[i].data| <= AUDIO_LIMIT && Passable(ExtraBlks(xs)[i]) && !Audio(ExtraBlks(xs)[i]) {
      assert ExtraOk(xs[i]);
    }
  }

  lemma {:induction false} ExtrasLie(stream: seq<Byte>, p: nat, xs: seq<Extra>, rest: Bits)
    requires p <= |stream| && (forall i :: 0 <= i < |xs| ==> ExtraOk(xs[i])) && BytesToBits(stream[p..]) == ExtraBits(xs) + rest
    ensures Sized(ExtraBlks(xs)) && LaidFrom(stream, p, ExtraBlks(xs)) && p + Total(ExtraBlks(xs)) <= |stream|
    ensures 8 * Total(ExtraBlks(xs)) == |ExtraBits(xs)| && BytesToBits(stream[p + Total(ExtraBlks(xs))..]) == rest
    decreases |xs|
  {
    hide Length, LiesAt, FramedBits, BytesToBits, ExtraOk;
    ExtraPasses(xs);
    if xs == [] {
      assert [] + rest == rest;
    } else {
      ExtraStep(xs);
      var x := Blk(xs[0].key, xs[0].data);
      Assoc(FramedBits(x.key, x.data), ExtraBits(xs[1..]), rest);
      LiesFirst(stream, p, x, ExtraBits(xs[1..]) + rest);
      ExtrasLie(stream, p + Length(x), xs[1..], rest);
      assert ExtraBlks(xs)[1..] == ExtraBlks(xs[1..]);
    }
  }

  ghost function AudioBlk(b: Books, msOn: bool, maxBand: nat, m: EncMem, fs: seq<Frame>): Blk
    requires BooksValid(b) && maxBand < 32 && EncMemOk(m) && FramesOk(fs)
  {
    Blk(AP, Payload(RunBits(b, msOn, maxBand, true, m, fs)))
  }

  /** The blocks of some groups, and their runs. */
  ghost function BlksOf(b: Books, msOn: bool, maxBand: nat, full: nat, m: EncMem, gs: seq<Group>): seq<Blk>
    requires BooksValid(b) && maxBand < 32 && EncMemOk(m) && GroupsOk(b, msOn, maxBand, full, m, gs)
    decreases |gs|
  {
    if gs == [] then []
    else
      ExtraBlks(gs[0].before)
      + ([AudioBlk(b, msOn, maxBand, m, gs[0].frames)]
         + BlksOf(b, msOn, maxBand, full, RunEnc(maxBand, true, m, gs[0].frames), gs[1..]))
  }

  ghost function RunsOf(b: Books, msOn: bool, maxBand: nat, full: nat, m: EncMem, gs: seq<Group>): seq<Run>
    requires BooksValid(b) && maxBand < 32 && EncMemOk(m) && GroupsOk(b, msOn, maxBand, full, m, gs)
    decreases |gs|
  {
    if gs == [] then []
    else [Run(m, gs[0].frames)] + RunsOf(b, msOn, maxBand, full, RunEnc(maxBand, true, m, gs[0].frames), gs[1..])
  }

  /** The first group of some, and the others. */
  lemma FirstGroup(b: Books, msOn: bool, maxBand: nat, full: nat, m: EncMem, gs: seq<Group>)
    requires BooksValid(b) && maxBand < 32 && EncMemOk(m) && GroupsOk(b, msOn, maxBand, full, m, gs) && gs != []
    ensures var g := gs[0];
            && FramesOk(g.frames) && 1 <= |g.frames| <= full && (|gs| > 1 ==> |g.frames| == full)
            && (forall i :: 0 <= i < |g.before| ==> ExtraOk(g.before[i]))
            && var n := RunEnc(maxBand, true, m, g.frames); var x := AudioBlk(b, msOn, maxBand, m, g.frames);
            && EncMemOk(n) && GroupsOk(b, msOn, maxBand, full, n, gs[1..]) && Audio(x) && |x.data| <= AUDIO_LIMIT
            && x.data == Payload(RunBits(b, msOn, maxBand, true, m, g.frames))
            && StreamBits(b, msOn, maxBand, full, m, gs)
               == ExtraBits(g.before) + (FramedBits(x.key, x.data) + StreamBits(b, msOn, maxBand, full, n, gs[1..]))
            && BlksOf(b, msOn, maxBand, full, m, gs) == ExtraBlks(g.before) + ([x] + BlksOf(b, msOn, maxBand, full, n, gs[1..]))
            && RunsOf(b, msOn, maxBand, full, m, gs) == [Run(m, g.frames)] + RunsOf(b, msOn, maxBand, full, n, gs[1..])
  {
    hide BooksValid, EncMemOk, FramesOk, ExtraOk, RunBits, RunEnc, FramedBits, ExtraBits, Payload, ExtraBlks;
  }

  /** The groups lie in the stream as their blocks. */
  lemma {:induction false} GroupsLie(stream: seq<Byte>, p: nat, b: Books, msOn: bool, maxBand: nat, full: nat, m: EncMem, gs: seq<Group>, rest: Bits)
    requires BooksValid(b) && maxBand < 32 && EncMemOk(m) && GroupsOk(b, msOn, maxBand, full, m, gs) && p <= |stream|
    requires BytesToBits(stream[p..]) == StreamBits(b, msOn, maxBand, full, m, gs) + rest
    ensures var bs := BlksOf(b, msOn, maxBand, full, m, gs);
            && Sized(bs) && LaidFrom(stream, p, bs) && p + Total(bs) <= |stream|
            && 8 * Total(bs) == |StreamBits(b, msOn, maxBand, full, m, gs)| && BytesToBits(stream[p + Total(bs)..]) == rest
    decreases |gs|
  {
    hide *;
    if gs == [] {
      NoGroup(b, msOn, maxBand, full, m);
      NothingIn(stream, p, rest);
    } else {
      FirstGroup(b, msOn, maxBand, full, m, gs);
      var g, n := gs[0], RunEnc(maxBand, true, m, gs[0].frames);
      var x := AudioBlk(b, msOn, maxBand, m, g.frames);
      var s, f, e := StreamBits(b, msOn, maxBand, full, n, gs[1..]), FramedBits(x.key, x.data), ExtraBits(g.before);
      Assoc(e, f + s, rest);
      Assoc(f, s, rest);
      ExtrasLie(stream, p, g.before, f + (s + rest));
      var q := p + Total(ExtraBlks(g.before));
      LiesFirst(stream, q, x, s + rest);
      GroupsLie(stream, q + Length(x), b, msOn, maxBand, full, n, gs[1..], rest);
      var tail := BlksOf(b, msOn, maxBand, full, n, gs[1..]);
      OneMore(stream, q, x, tail);
      LaidConcat(stream, p, ExtraBlks(g.before), [x] + tail);
    }
  }

  lemma NoGroup(b: Books, msOn: bool, maxBand: nat, full: nat, m: EncMem)
    requires BooksValid(b) && maxBand < 32 && EncMemOk(m)
    ensures GroupsOk(b, msOn, maxBand, full, m, []) && BlksOf(b, msOn, maxBand, full, m, []) == []
    ensures StreamBits(b, msOn, maxBand, full, m, []) == [] && RunsOf(b, msOn, maxBand, full, m, []) == []
  {
    hide BooksValid, EncMemOk;
  }

  lemma NothingIn(stream: seq<Byte>, p: nat, rest: Bits)
    ensures [] + rest == rest && Sized([]) && LaidFrom(stream, p, []) && Total([]) == 0
  {}

  lemma OneMore(stream: seq<Byte>, p: nat, x: Blk, bs: seq<Blk>)
    requires |x.data| <= AUDIO_LIMIT && Sized(bs) && LiesAt(stream, p, x) && LaidFrom(stream, p + Length(x), bs)
    ensures Sized([x] + bs) && LaidFrom(stream, p, [x] + bs) && Total([x] + bs) == Length(x) + Total(bs)
  {
    hide Length, LiesAt;
    assert ([x] + bs)[1..] == bs;
  }

  // ----- what the blocks carry -----

  lemma {:induction false} NoneAudio(bs: seq<Blk>, k: nat)
    requires k <= |bs| && forall i :: 0 <= i < |bs| ==> !Audio(bs[i])
    ensures Audios(bs, k) == 0
    decreases k
  {
    if k > 0 { NoneAudio(bs, k - 1); }
  }

  /** The frames of every group are short enough to be read ahead. */
  ghost predicate AllShort(b: Books, msOn: bool, maxBand: nat, full: nat, m: EncMem, gs: seq<Group>)
    requires BooksValid(b) && maxBand < 32 && EncMemOk(m) && GroupsOk(b, msOn, maxBand, full, m, gs)
    decreases |gs|
  {
    gs == [] || (Short(b, msOn, maxBand, true, m, gs[0].frames)
                 && AllShort(b, msOn, maxBand, full, RunEnc(maxBand, true, m, gs[0].frames), gs[1..]))
  }

  lemma FirstShort(b: Books, msOn: bool, maxBand: nat, full: nat, m: EncMem, gs: seq<Group>)
    requires BooksValid(b) && maxBand < 32 && EncMemOk(m) && GroupsOk(b, msOn, maxBand, full, m, gs) && gs != []
    requires AllShort(b, msOn, maxBand, full, m, gs)
    ensures FramesOk(gs[0].frames) && Short(b, msOn, maxBand, true, m, gs[0].frames)
    ensures var n := RunEnc(maxBand, true, m, gs[0].frames);
            EncMemOk(n) && GroupsOk(b, msOn, maxBand, full, n, gs[1..]) && AllShort(b, msOn, maxBand, full, n, gs[1..])
  {
    hide BooksValid, EncMemOk, FramesOk, ExtraOk, RunBits, RunEnc, Payload, Short;
  }

  /** Block `k`, if it is audio, holds the run with its number. */
  ghost predicate Holds(b: Books, msOn: bool, maxBand: nat, full: nat, bs: seq<Blk>, runs: seq<Run>, k: nat)
  {
    k < |bs| && Audio(bs[k]) ==> Audios(bs, k) < |runs| && RunOk(b, msOn, maxBand, full, bs[k], runs[Audios(bs, k)])
  }

  /** All of them do, and what is on the way to them passes. */
  lemma {:induction false} GroupsCarry(b: Books, msOn: bool, maxBand: nat, full: nat, m: EncMem, gs: seq<Group>, k: nat)
    requires BooksValid(b) && maxBand < 32 && EncMemOk(m) && GroupsOk(b, msOn, maxBand, full, m, gs)
    requires AllShort(b, msOn, maxBand, full, m, gs)
    ensures var bs, runs := BlksOf(b, msOn, maxBand, full, m, gs), RunsOf(b, msOn, maxBand, full, m, gs);
            && Audios(bs, |bs|) == |runs| == |gs| && Holds(b, msOn, maxBand, full, bs, runs, k)
            && (k < |bs| ==> Audio(bs[k]) || Passable(bs[k]))
    decreases |gs|
  {
    hide *;
    if gs == [] {
      NoGroup(b, msOn, maxBand, full, m);
      HoldsNone(b, msOn, maxBand, full, k);
    } else {
      FirstGroup(b, msOn, maxBand, full, m, gs);
      FirstShort(b, msOn, maxBand, full, m, gs);
      var g, n := gs[0], RunEnc(maxBand, true, m, gs[0].frames);
      var x, e := AudioBlk(b, msOn, maxBand, m, g.frames), ExtraBlks(g.before);
      var tail, runs := BlksOf(b, msOn, maxBand, full, n, gs[1..]), RunsOf(b, msOn, maxBand, full, n, gs[1..]);
      GroupsCarry(b, msOn, maxBand, full, n, gs[1..], if k > |e| then k - |e| - 1 else 0);
      RunIs(b, msOn, maxBand, full, x, Run(m, g.frames));
      ExtraPasses(g.before);
      NoneAudio(e, |e|);
      if k < |e| { NoneAudio(e, k); }
      HoldsMore(b, msOn, maxBand, full, e, x, tail, Run(m, g.frames), runs, k);
    }
  }

  lemma HoldsNone(b: Books, msOn: bool, maxBand: nat, full: nat, k: nat)
    ensures Audios([], 0) == 0 && Holds(b, msOn, maxBand, full, [], [], k)
  {}

  lemma RunIs(b: Books, msOn: bool, maxBand: nat, full: nat, x: Blk, run: Run)
    requires BooksValid(b) && maxBand < 32 && 1 <= |run.frames| <= full && Short(b, msOn, maxBand, true, run.mem, run.frames)
    requires EncMemOk(run.mem) && FramesOk(run.frames) && x.data == Payload(RunBits(b, msOn, maxBand, true, run.mem, run.frames))
    ensures RunOk(b, msOn, maxBand, full, x, run)
  {
    hide BooksValid, Short, RunBits, Payload, EncMemOk, FramesOk;
  }

  lemma HoldsMore(b: Books, msOn: bool, maxBand: nat, full: nat, e: seq<Blk>, x: Blk, tail: seq<Blk>, run: Run, runs: seq<Run>, k: nat)
    requires (forall i :: 0 <= i < |e| ==> !Audio(e[i])) && Audio(x) && RunOk(b, msOn, maxBand, full, x, run)
    requires Audios(e, |e|) == 0 && Audios(tail, |tail|) == |runs|
    requires k > |e| ==> Holds(b, msOn, maxBand, full, tail, runs, k - |e| - 1)
    ensures var bs := e + ([x] + tail);
            Audios(bs, |bs|) == |[run] + runs| && Holds(b, msOn, maxBand, full, bs, [run] + runs, k)
  {
    hide Audio, RunOk;
    var bs := e + ([x] + tail);
    AudiosConcat(e, [x] + tail, |tail| + 1);
    AudiosConcat([x], tail, |tail|);
    AudiosStep([x], 0);
    if k < |bs| {
      if k < |e| {
        assert bs[k] == e[k];
      } else if k == |e| {
        AudiosConcat(e, [x] + tail, 0);
        assert bs[k] == x;
      } else {
        AudiosConcat(e, [x] + tail, k - |e|);
        AudiosConcat([x], tail, k - |e| - 1);
        assert bs[k] == tail[k - |e| - 1];
      }
    }
  }

  /** Where audio block `j` and what belongs to it begin. */
  lemma {:induction false} GroupStart(b: Books, msOn: bool, maxBand: nat, full: nat, m: EncMem, gs: seq<Group>, j: nat, p: nat,
                                      stream: seq<Byte>, rest: Bits) returns (k: nat)
    requires BooksValid(b) && maxBand < 32 && EncMemOk(m) && GroupsOk(b, msOn, maxBand, full, m, gs) && j <= |gs|
    requires p <= |stream| && BytesToBits(stream[p..]) == StreamBits(b, msOn, maxBand, full, m, gs) + rest
    ensures var bs := BlksOf(b, msOn, maxBand, full, m, gs);
            && Sized(bs) && k <= |bs| && Audios(bs, k) == j && (j < |gs| ==> k < |bs|)
            && 8 * At(bs, p, k) == 8 * p + BlockOffset(b, msOn, maxBand, full, m, gs, j)
    decreases j
  {
    hide *;
    GroupsLie(stream, p, b, msOn, maxBand, full, m, gs, rest);
    var bs := BlksOf(b, msOn, maxBand, full, m, gs);
    if j == 0 {
      BlockOffsetNone(b, msOn, maxBand, full, m, gs);
      AtFirst(bs, p);
      NoAudios(bs);
      if gs != [] { FirstGroup(b, msOn, maxBand, full, m, gs); }
      k := 0;
    } else {
      FirstGroup(b, msOn, maxBand, full, m, gs);
      BlockOffsetStep(b, msOn, maxBand, full, m, gs, j);
      var g, n := gs[0], RunEnc(maxBand, true, m, gs[0].frames);
      var x, e := AudioBlk(b, msOn, maxBand, m, g.frames), ExtraBlks(g.before);
      var s, f, eb := StreamBits(b, msOn, maxBand, full, n, gs[1..]), FramedBits(x.key, x.data), ExtraBits(g.before);
      AudioIs(x);
      Assoc(eb, f + s, rest);
      Assoc(f, s, rest);
      ExtrasLie(stream, p, g.before, f + (s + rest));
      var q := p + Total(e);
      LiesFirst(stream, q, x, s + rest);
      var i := GroupStart(b, msOn, maxBand, full, n, gs[1..], j - 1, q + Length(x), stream, rest);
      GroupsLie(stream, q + Length(x), b, msOn, maxBand, full, n, gs[1..], rest);
      var tail := BlksOf(b, msOn, maxBand, full, n, gs[1..]);
      ExtraPasses(g.before);
      NoneAudio(e, |e|);
      Behind(e, x, tail, p, i);
      k := |e| + (1 + i);
    }
  }

  lemma NoAudios(bs: seq<Blk>)
    ensures Audios(bs, 0) == 0
  {}

  /** A place behind an audio block and what came before it. */
  lemma Behind(e: seq<Blk>, x: Blk, tail: seq<Blk>, p: nat, i: nat)
    requires Sized(e) && |x.data| <= AUDIO_LIMIT && Sized(tail) && i <= |tail| && Audios(e, |e|) == 0 && Audio(x)
    ensures var bs := e + ([x] + tail);
            && Sized(bs) && At(bs, p, |e| + (1 + i)) == At(tail, p + Total(e) + Length(x), i)
            && Audios(bs, |e| + (1 + i)) == 1 + Audios(tail, i)
  {
    hide Audio, Length, At, Total;
    assert Sized([x]) && Sized([x] + tail);
    AtConcat(e, [x] + tail, p, 1 + i);
    AtConcat([x], tail, p + Total(e), i);
    TotalOne(x);
    AudiosConcat(e, [x] + tail, 1 + i);
    AudiosConcat([x], tail, i);
    AudiosStep([x], 0);
  }

  lemma TotalOne(x: Blk)
    requires |x.data| <= AUDIO_LIMIT
    ensures Sized([x]) && Total([x]) == Length(x)
  {
    hide Length;
    assert [x][1..] == [];
  }

  // ----- a whole file -----

  /** What follows the audio in a file: other blocks, the end block, and anything. */
  ghost function Closing(after: seq<Extra>, more: Bits): Bits
    requires forall i :: 0 <= i < |after| ==> ExtraOk(after[i])
  {
    ExtraBits(after) + (FramedBits(SE, []) + more)
  }

  ghost function EndBlk(): Blk { Blk(SE, []) }

  /** The blocks of a file of some groups. */
  ghost function FileLayout(b: Books, msOn: bool, maxBand: nat, full: nat, log: Log, after: seq<Extra>): Layout
    requires BooksValid(b) && maxBand < 32 && EncMemOk(log.start) && GroupsOk(b, msOn, maxBand, full, log.start, log.done)
  {
    Layout(BlksOf(b, msOn, maxBand, full, log.start, log.done) + (ExtraBlks(after) + [EndBlk()]), |log.base|,
           RunsOf(b, msOn, maxBand, full, log.start, log.done))
  }

  lemma TailLies(file: seq<Byte>, q: nat, after: seq<Extra>, more: Bits)
    requires q <= |file| && (forall i :: 0 <= i < |after| ==> ExtraOk(after[i])) && BytesToBits(file[q..]) == Closing(after, more)
    ensures Sized(ExtraBlks(after) + [EndBlk()]) && LaidFrom(file, q, ExtraBlks(after) + [EndBlk()])
  {
    hide *;
    ClosingIs(after, more);
    ExtrasLie(file, q, after, FramedBits(SE, []) + more);
    var e := q + Total(ExtraBlks(after));
    EndIs();
    LiesFirst(file, e, EndBlk(), more);
    NothingIn(file, e + Length(EndBlk()), more);
    OneMore(file, e, EndBlk(), []);
    AddNothing(EndBlk());
    LaidConcat(file, q, ExtraBlks(after), [EndBlk()]);
  }

  /** The file lies as its layout says. */
  lemma FileLaid(b: Books, msOn: bool, maxBand: nat, full: nat, step: nat, log: Log, output: seq<Byte>, table: seq<nat>,
                 file: seq<Byte>, after: seq<Extra>, more: Bits)
    requires Stored(b, msOn, maxBand, full, step, log, output, table) && forall i :: 0 <= i < |after| ==> ExtraOk(after[i])
    requires BooksValid(b) && maxBand < 32 && EncMemOk(log.start) && GroupsOk(b, msOn, maxBand, full, log.start, log.done)
    requires BytesToBits(file) == BytesToBits(output) + Closing(after, more)
    ensures var lay := FileLayout(b, msOn, maxBand, full, log, after);
            && Laid(file, lay.bs, lay.base) && lay.base <= |file| && SeekIndexing.Closed(lay.bs)
            && |log.base| <= |file|
            && BytesToBits(file[|log.base|..]) == StreamBits(b, msOn, maxBand, full, log.start, log.done) + Closing(after, more)
  {
    hide *;
    StoredParts(b, msOn, maxBand, full, step, log, output, table);
    var s, c := StreamBits(b, msOn, maxBand, full, log.start, log.done), Closing(after, more);
    var p := |log.base|;
    Assoc(BytesToBits(log.base), s, c);
    Front(file, log.base, s + c);
    GroupsLie(file, p, b, msOn, maxBand, full, log.start, log.done, c);
    var bs := BlksOf(b, msOn, maxBand, full, log.start, log.done);
    var q := p + Total(bs);
    TailLies(file, q, after, more);
    LaidConcat(file, p, bs, ExtraBlks(after) + [EndBlk()]);
    LayoutIs(b, msOn, maxBand, full, log, after);
    LaidFromIs(file, p, bs + (ExtraBlks(after) + [EndBlk()]));
    EndsSo(bs, ExtraBlks(after));
  }

  lemma ClosingIs(after: seq<Extra>, more: Bits)
    requires forall i :: 0 <= i < |after| ==> ExtraOk(after[i])
    ensures Closing(after, more) == ExtraBits(after) + (FramedBits(SE, []) + more)
  {
    hide ExtraBits, FramedBits;
  }

  lemma EndIs()
    ensures EndBlk().key == SE && EndBlk().data == [] && |EndBlk().data| <= AUDIO_LIMIT && !Audio(EndBlk())
  {}

  lemma AddNothing(x: Blk)
    ensures [x] + [] == [x]
  {}

  lemma LayoutIs(b: Books, msOn: bool, maxBand: nat, full: nat, log: Log, after: seq<Extra>)
    requires BooksValid(b) && maxBand < 32 && EncMemOk(log.start) && GroupsOk(b, msOn, maxBand, full, log.start, log.done)
    ensures FileLayout(b, msOn, maxBand, full, log, after)
         == Layout(BlksOf(b, msOn, maxBand, full, log.start, log.done) + (ExtraBlks(after) + [EndBlk()]), |log.base|,
                   RunsOf(b, msOn, maxBand, full, log.start, log.done))
  {
    hide BooksValid, EncMemOk, GroupsOk, BlksOf, RunsOf, ExtraBlks, EndBlk;
  }

  lemma EndsSo(a: seq<Blk>, e: seq<Blk>)
    ensures SeekIndexing.Closed(a + (e + [EndBlk()]))
  {}

  /** Behind the audio blocks none comes. */
  lemma NoneBehind(bs: seq<Blk>, e: seq<Blk>, k: nat)
    requires k <= |e| && forall i :: 0 <= i < |e| ==> !Audio(e[i])
    ensures Audios(bs + e, |bs| + k) == Audios(bs, |bs|)
  {
    hide Audio;
    AudiosConcat(bs, e, k);
    NoneAudio(e, k);
  }

  lemma AfterNone(after: seq<Extra>)
    requires forall i :: 0 <= i < |after| ==> ExtraOk(after[i])
    ensures var e := ExtraBlks(after) + [EndBlk()]; forall i :: 0 <= i < |e| ==> !Audio(e[i])
  {
    hide Passable;
    ExtraPasses(after);
  }

  /** It carries the frames that were encoded, run by run, and nothing stops the way to the last of them. */
  lemma FileCarries(b: Books, msOn: bool, maxBand: nat, full: nat, log: Log, after: seq<Extra>)
    requires BooksValid(b) && maxBand < 32 && EncMemOk(log.start) && GroupsOk(b, msOn, maxBand, full, log.start, log.done)
    requires AllShort(b, msOn, maxBand, full, log.start, log.done) && forall i :: 0 <= i < |after| ==> ExtraOk(after[i])
    ensures var lay := FileLayout(b, msOn, maxBand, full, log, after);
            Carries(b, msOn, maxBand, full, lay) && Programmes.Orderly(lay.bs)
  {
    hide *;
    LayoutIs(b, msOn, maxBand, full, log, after);
    var lay := FileLayout(b, msOn, maxBand, full, log, after);
    var bs, e := BlksOf(b, msOn, maxBand, full, log.start, log.done), ExtraBlks(after) + [EndBlk()];
    AfterNone(after);
    GroupsCarry(b, msOn, maxBand, full, log.start, log.done, 0);
    NoneBehind(bs, e, |e|);
    forall k | 0 <= k < |lay.bs|
      ensures Audio(lay.bs[k]) ==> Audios(lay.bs, k) < |lay.runs| && RunOk(b, msOn, maxBand, full, lay.bs[k], lay.runs[Audios(lay.bs, k)])
      ensures Audios(lay.bs, k) < Audios(lay.bs, |lay.bs|) ==> Audio(lay.bs[k]) || Passable(lay.bs[k])
    {
      if k < |bs| {
        GroupsCarry(b, msOn, maxBand, full, log.start, log.done, k);
        AudiosFront(bs, e, k);
        HoldsAt(b, msOn, maxBand, full, bs, lay.runs, k);
      } else {
        NoneBehind(bs, e, k - |bs|);
      }
    }
    RunsFull(b, msOn, maxBand, full, log.start, log.done);
    CarriesIs(b, msOn, maxBand, full, lay);
    OrderlyIs(lay.bs);
  }

  lemma HoldsAt(b: Books, msOn: bool, maxBand: nat, full: nat, bs: seq<Blk>, runs: seq<Run>, k: nat)
    requires Holds(b, msOn, maxBand, full, bs, runs, k) && k < |bs|
    ensures Audio(bs[k]) ==> Audios(bs, k) < |runs| && RunOk(b, msOn, maxBand, full, bs[k], runs[Audios(bs, k)])
  {
    hide Audio, RunOk, Audios;
  }

  lemma CarriesIs(b: Books, msOn: bool, maxBand: nat, full: nat, lay: Layout)
    requires |lay.runs| == Audios(lay.bs, |lay.bs|) && forall i :: 0 <= i < |lay.runs| - 1 ==> |lay.runs[i].frames| == full
    requires forall k :: 0 <= k < |lay.bs| && Audio(lay.bs[k]) ==>
               Audios(lay.bs, k) < |lay.runs| && RunOk(b, msOn, maxBand, full, lay.bs[k], lay.runs[Audios(lay.bs, k)])
    ensures Carries(b, msOn, maxBand, full, lay)
  {
    hide Audio, RunOk, Audios;
  }

  lemma OrderlyIs(bs: seq<Blk>)
    requires forall i :: 0 <= i < |bs| && Audios(bs, i) < Audios(bs, |bs|) ==> Audio(bs[i]) || Passable(bs[i])
    ensures Programmes.Orderly(bs)
  {
    hide Audio, Passable, Audios;
  }

  /** Every run but the last is full, and all of them together are the frames encoded. */
  lemma {:induction false} RunsFull(b: Books, msOn: bool, maxBand: nat, full: nat, m: EncMem, gs: seq<Group>)
    requires BooksValid(b) && maxBand < 32 && EncMemOk(m) && GroupsOk(b, msOn, maxBand, full, m, gs)
    ensures var runs := RunsOf(b, msOn, maxBand, full, m, gs);
            && |runs| == |gs| && (forall i :: 0 <= i < |runs| - 1 ==> |runs[i].frames| == full)
            && Programmes.AllFrames(runs) == AllFrames(gs)
    decreases |gs|
  {
    hide *;
    if gs == [] {
      NoGroup(b, msOn, maxBand, full, m);
      NoFrames();
    } else {
      FirstGroup(b, msOn, maxBand, full, m, gs);
      RunsFull(b, msOn, maxBand, full, RunEnc(maxBand, true, m, gs[0].frames), gs[1..]);
      FramesStep(m, gs, RunsOf(b, msOn, maxBand, full, RunEnc(maxBand, true, m, gs[0].frames), gs[1..]));
    }
  }

  lemma NoFrames()
    ensures Programmes.AllFrames([]) == AllFrames([])
  {}

  lemma FramesStep(m: EncMem, gs: seq<Group>, runs: seq<Run>)
    requires gs != [] && Programmes.AllFrames(runs) == AllFrames(gs[1..])
    ensures Programmes.AllFrames([Run(m, gs[0].frames)] + runs) == AllFrames(gs)
  {
    assert ([Run(m, gs[0].frames)] + runs)[1..] == runs;
  }

  // ----- and its index -----

  /** The table of byte positions, in bits. */
  function InBits(table: seq<nat>): (t: seq<nat>)
    ensures |t| == |table| && forall i :: 0 <= i < |table| ==> t[i] == 8 * table[i]
  {
    if table == [] then [] else InBits(table[..|table| - 1]) + [8 * table[|table| - 1]]
  }

  lemma {:induction false} AtFront(a: seq<Blk>, b: seq<Blk>, p: nat, k: nat)
    requires Sized(a) && Sized(a + b) && k <= |a|
    ensures At(a + b, p, k) == At(a, p, k)
    decreases k
  {
    hide Length;
    if k > 0 { AtFront(a, b, p, k - 1); }
  }

  /** Entry `j` of the encoder's table is for the block with number `j << shift`. */
  lemma SlotOf(table: seq<nat>, starts: seq<nat>, shift: nat, j: nat)
    requires Pow2(shift) >= 1 && Indexed(table, starts, Pow2(shift)) && j < |table|
    ensures Shl(j, shift) < |starts| && Shl(j, shift) % Pow2(shift) == 0 && Shl(j, shift) / Pow2(shift) == j
  {
    hide Shl, Pow2;
    var s := Pow2(shift);
    ShlMul(j, shift);
    DivUnique(j * s, s, j, 0);
    SlotsAbove(|starts|, s, j);
  }

  lemma SlotsAbove(n: nat, s: nat, j: nat)
    requires s >= 1 && j < Slots(n, s)
    ensures j * s < n
  {
    var q := (n + s - 1) / s;
    assert q * s <= n + s - 1;
    Distrib(q, j, s);
  }

  lemma FileIndexed(b: Books, msOn: bool, maxBand: nat, full: nat, shift: nat, log: Log, output: seq<Byte>, table: seq<nat>,
                    file: seq<Byte>, after: seq<Extra>, more: Bits)
    requires Stored(b, msOn, maxBand, full, Pow2(shift), log, output, table) && forall i :: 0 <= i < |after| ==> ExtraOk(after[i])
    requires BooksValid(b) && maxBand < 32 && EncMemOk(log.start) && GroupsOk(b, msOn, maxBand, full, log.start, log.done)
    requires BytesToBits(file) == BytesToBits(output) + Closing(after, more)
    ensures var lay := FileLayout(b, msOn, maxBand, full, log, after); IndexOk(lay.bs, lay.base, shift, InBits(table))
  {
    hide *;
    StoredParts(b, msOn, maxBand, full, Pow2(shift), log, output, table);
    FileLaid(b, msOn, maxBand, full, Pow2(shift), log, output, table, file, after, more);
    LayoutIs(b, msOn, maxBand, full, log, after);
    var lay := FileLayout(b, msOn, maxBand, full, log, after);
    var bs, e, p := BlksOf(b, msOn, maxBand, full, log.start, log.done), ExtraBlks(after) + [EndBlk()], |log.base|;
    LaidSized(file, lay.bs, lay.base);
    OneStartEach(b, msOn, maxBand, full, log);
    forall j | 0 <= j < |table| ensures Leads(lay.bs, p, InBits(table)[j], Shl(j, shift)) {
      SlotOf(table, log.starts, shift, j);
      IndexedAt(b, msOn, maxBand, full, log, table, Pow2(shift), Shl(j, shift));
      var k := GroupStart(b, msOn, maxBand, full, log.start, log.done, Shl(j, shift), p, file, Closing(after, more));
      AtFront(bs, e, p, k);
      AudiosFront(bs, e, k);
      LeadsIs(lay.bs, p, InBits(table)[j], Shl(j, shift), k);
    }
    IndexIs(lay.bs, p, shift, InBits(table));
  }

  lemma OneStartEach(b: Books, msOn: bool, maxBand: nat, full: nat, log: Log)
    requires BooksValid(b) && maxBand < 32 && EncMemOk(log.start) && GroupsOk(b, msOn, maxBand, full, log.start, log.done)
    requires StartsAt(b, msOn, maxBand, full, log.start, log.done, |log.base|, log.starts)
    ensures |log.starts| == |log.done|
  {
    hide BooksValid, EncMemOk, GroupsOk, BlockOffset;
  }

  lemma LeadsIs(bs: seq<Blk>, base: nat, pos: nat, n: nat, k: nat)
    requires Sized(bs) && k < |bs| && pos == 8 * At(bs, base, k) && Audios(bs, k) == n
    ensures Leads(bs, base, pos, n)
  {
    hide At, Audios, Sized;
  }

  lemma IndexIs(bs: seq<Blk>, base: nat, shift: nat, table: seq<nat>)
    requires forall j :: 0 <= j < |table| ==> Leads(bs, base, table[j], Shl(j, shift))
    ensures IndexOk(bs, base, shift, table)
  {
    hide Leads, Shl;
  }

  /** Everything the demuxer, the seeker and the player assume of a stream holds of a file the encoder has written, with
      other blocks between its audio and its end: where its blocks lie, that it ends, what they carry, and that the
      table the encoder stored is an index. */
  lemma FileReady(b: Books, msOn: bool, maxBand: nat, blockPwr: nat, shift: nat, log: Log, output: seq<Byte>, table: seq<nat>,
                  file: seq<Byte>, after: seq<Extra>, more: Bits)
    requires Stored(b, msOn, maxBand, Pow2(blockPwr), Pow2(shift), log, output, table)
    requires BooksValid(b) && maxBand < 32 && EncMemOk(log.start) && GroupsOk(b, msOn, maxBand, Pow2(blockPwr), log.start, log.done)
    requires AllShort(b, msOn, maxBand, Pow2(blockPwr), log.start, log.done) && forall i :: 0 <= i < |after| ==> ExtraOk(after[i])
    requires BytesToBits(file) == BytesToBits(output) + Closing(after, more)
    ensures var lay := FileLayout(b, msOn, maxBand, Pow2(blockPwr), log, after);
            && Laid(file, lay.bs, lay.base) && lay.base <= |file| && SeekIndexing.Closed(lay.bs) && Programmes.Orderly(lay.bs)
            && Carries(b, msOn, maxBand, Pow2(blockPwr), lay) && IndexOk(lay.bs, lay.base, shift, InBits(table))
            && Programmes.AllFrames(lay.runs) == AllFrames(log.done)
  {
    hide *;
    FileLaid(b, msOn, maxBand, Pow2(blockPwr), Pow2(shift), log, output, table, file, after, more);
    FileCarries(b, msOn, maxBand, Pow2(blockPwr), log, after);
    FileIndexed(b, msOn, maxBand, Pow2(blockPwr), shift, log, output, table, file, after, more);
    RunsFull(b, msOn, maxBand, Pow2(blockPwr), log.start, log.done);
    LayoutIs(b, msOn, maxBand, Pow2(blockPwr), log, after);
  }
}
