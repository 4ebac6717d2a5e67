/** The seek index over a stream of blocks: what an entry stands for, when one is due, and the steps of a scan. */
module SeekIndexing {
  import opened BitStrings
  import opened Sizes
  import opened Demuxing
  import Sv8Blocks
  import SeekTables

  const FRAME: nat := 1152
  const SYNTH_DELAY: nat := 481

  /** A block of the stream: its key and content. */
  datatype Blk = Blk(key: (Byte, Byte), data: seq<Byte>)

  predicate Audio(x: Blk) { x.key == Sv8Blocks.AP }

  ghost predicate Sized(bs: seq<Blk>) { forall i :: 0 <= i < |bs| ==> |bs[i].data| <= Sv8Blocks.AUDIO_LIMIT }

  /** The header in front of a block. */
  ghost function HeaderOf(x: Blk): (h: seq<Byte>)
    requires |x.data| <= Sv8Blocks.AUDIO_LIMIT
    ensures 3 <= |h| <= 11
  {
    Sv8Blocks.LimitFits(|x.data|);
    HeaderSize(x.key, |x.data|);
    BlockHeader(x.key, |x.data|)
  }

  lemma HeaderSize(key: (Byte, Byte), size: nat)
    requires Fits(size + 2, true, 9)
    ensures 3 <= |BlockHeader(key, size)| <= 11
  {
    SizeCodeIs(size + 2, true);
  }

  ghost function Length(x: Blk): (n: nat)
    requires |x.data| <= Sv8Blocks.AUDIO_LIMIT
    ensures n >= 3
  {
    |HeaderOf(x)| + |x.data|
  }

  /** The byte at which block `k` begins, in a stream whose first block begins at `base`. */
  ghost function At(bs: seq<Blk>, base: nat, k: nat): nat
    requires Sized(bs) && k <= |bs|
  {
    if k == 0 then base else At(bs, base, k - 1) + Length(bs[k - 1])
  }

  /** A block as it lies in the stream. */
  ghost predicate LiesAt(stream: seq<Byte>, p: nat, x: Blk)
    requires |x.data| <= Sv8Blocks.AUDIO_LIMIT
  {
    var h := HeaderOf(x);
    p + Length(x) <= |stream| && stream[p..p + |h|] == h && stream[p + |h|..p + Length(x)] == x.data
  }

  /** The stream holds the blocks, one behind the other. */
  ghost predicate Laid(stream: seq<Byte>, bs: seq<Blk>, base: nat)
  {
    Sized(bs) && forall k :: 0 <= k < |bs| ==> LiesAt(stream, At(bs, base, k), bs[k])
  }

  /** Audio blocks before block `k`: the number of the next one. */
  function Audios(bs: seq<Blk>, k: nat): (n: nat)
    requires k <= |bs|
    ensures n <= k
  {
    if k == 0 then 0 else Audios(bs, k - 1) + (if Audio(bs[k - 1]) then 1 else 0)
  }

  lemma AudiosStep(bs: seq<Blk>, k: nat)
    requires k < |bs|
    ensures Audios(bs, k + 1) == Audios(bs, k) + (if Audio(bs[k]) then 1 else 0)
  {}

  lemma AtStep(bs: seq<Blk>, base: nat, k: nat)
    requires Sized(bs) && k < |bs|
    ensures At(bs, base, k + 1) == At(bs, base, k) + Length(bs[k]) && Length(bs[k]) == |HeaderOf(bs[k])| + |bs[k].data|
  {}

  lemma LaidAt(stream: seq<Byte>, bs: seq<Blk>, base: nat, k: nat)
    requires Laid(stream, bs, base) && k < |bs|
    ensures Sized(bs) && |bs[k].data| <= Sv8Blocks.AUDIO_LIMIT
    ensures LiesAt(stream, At(bs, base, k), bs[k]) && At(bs, base, k + 1) <= |stream|
    ensures At(bs, base, k + 1) == At(bs, base, k) + |HeaderOf(bs[k])| + |bs[k].data|
  {
    hide HeaderOf;
  }

  lemma {:induction false} AtWithin(stream: seq<Byte>, bs: seq<Blk>, base: nat, k: nat)
    requires Laid(stream, bs, base) && k <= |bs| && base <= |stream|
    ensures Sized(bs) && base <= At(bs, base, k) <= |stream|
    decreases k
  {
    hide HeaderOf, Laid;
    LaidSized(stream, bs, base);
    if k > 0 {
      LaidAt(stream, bs, base, k - 1);
      AtWithin(stream, bs, base, k - 1);
    }
  }

  lemma LaidSized(stream: seq<Byte>, bs: seq<Blk>, base: nat)
    requires Laid(stream, bs, base)
    ensures Sized(bs)
  {}

  lemma {:induction false} AtGrows(bs: seq<Blk>, base: nat, j: nat, k: nat)
    requires Sized(bs) && j <= k <= |bs|
    ensures At(bs, base, j) <= At(bs, base, k) && (j < k ==> At(bs, base, j) < At(bs, base, k))
    decreases k
  {
    hide HeaderOf;
    if j < k { AtGrows(bs, base, j, k - 1); }
  }

  lemma {:induction false} AudiosGrow(bs: seq<Blk>, j: nat, k: nat)
    requires j <= k <= |bs|
    ensures Audios(bs, j) <= Audios(bs, k)
    decreases k
  {
    if j < k { AudiosGrow(bs, j, k - 1); }
  }

  /** A block that is passed over on the way to the next audio block. */
  predicate Passable(x: Blk) { Sv8Blocks.KeyOk(x.key) && x.key != Sv8Blocks.SE && |x.data| <= Sv8Blocks.SKIP_LIMIT }

  /** Where the way to the next audio block ends: there, or at a block that stops it. */
  function NextOpen(bs: seq<Blk>, k: nat): (j: nat)
    requires k <= |bs|
    ensures k <= j <= |bs|
    decreases |bs| - k
  {
    if k == |bs| || Audio(bs[k]) || !Passable(bs[k]) then k else NextOpen(bs, k + 1)
  }

  lemma NextOpenIs(bs: seq<Blk>, k: nat)
    requires k < |bs|
    ensures NextOpen(bs, k) == if Audio(bs[k]) || !Passable(bs[k]) then k else NextOpen(bs, k + 1)
  {
    hide Passable, Audio;
  }

  /** Nothing on the way is audio. */
  lemma {:induction false} NextOpenAudios(bs: seq<Blk>, k: nat)
    requires k <= |bs|
    ensures Audios(bs, NextOpen(bs, k)) == Audios(bs, k)
    decreases |bs| - k
  {
    hide Passable, Audio;
    if k < |bs| && !Audio(bs[k]) && Passable(bs[k]) {
      AudiosStep(bs, k);
      NextOpenAudios(bs, k + 1);
    }
  }

  /** The stream ends with a block that says so. */
  ghost predicate Closed(bs: seq<Blk>) { |bs| > 0 && bs[|bs| - 1].key == Sv8Blocks.SE }

  /** So the way to the next audio block ends within it. */
  lemma {:induction false} NextOpenStops(bs: seq<Blk>, k: nat)
    requires Closed(bs) && k < |bs|
    ensures NextOpen(bs, k) < |bs| && (Audio(bs[NextOpen(bs, k)]) ==> NextOpen(bs, k) + 1 < |bs|)
    decreases |bs| - k
  {
    if k + 1 < |bs| && !Audio(bs[k]) && Passable(bs[k]) { NextOpenStops(bs, k + 1); }
  }

  /** Two places with the same audio blocks before them, with nothing on the way between them that stops, lead to the
      same audio block: so a seek ends at the block that a scan from the first one finds. */
  lemma {:induction false} NextOpenUnique(bs: seq<Blk>, j: nat, k: nat)
    requires j <= k <= |bs| && Audios(bs, j) == Audios(bs, k) && forall i :: j <= i < k ==> Audio(bs[i]) || Passable(bs[i])
    ensures NextOpen(bs, j) == NextOpen(bs, k)
    decreases k - j
  {
    hide Passable, Audio;
    if j < k {
      AudiosStep(bs, j);
      AudiosGrow(bs, j + 1, k);
      NextOpenIs(bs, j);
      NextOpenUnique(bs, j + 1, k);
    }
  }

  // ----- the index -----

  /** A table entry, in bits: from it on, the next audio block is number `n`. */
  ghost predicate Leads(bs: seq<Blk>, base: nat, pos: nat, n: nat)
  {
    Sized(bs) && exists k :: 0 <= k < |bs| && pos == 8 * At(bs, base, k) && Audios(bs, k) == n
  }

  ghost predicate IndexOk(bs: seq<Blk>, base: nat, shift: nat, table: seq<nat>)
  {
    forall j :: 0 <= j < |table| ==> Leads(bs, base, table[j], Shl(j, shift))
  }

  lemma Extend(bs: seq<Blk>, base: nat, shift: nat, table: seq<nat>, k: nat)
    requires Sized(bs) && IndexOk(bs, base, shift, table) && k < |bs| && Audios(bs, k) == Shl(|table|, shift)
    ensures IndexOk(bs, base, shift, table + [8 * At(bs, base, k)])
  {
    hide Shl, Sized;
    var t := table + [8 * At(bs, base, k)];
    forall j | 0 <= j < |t| ensures Leads(bs, base, t[j], Shl(j, shift)) {
      if j < |table| { assert t[j] == table[j]; }
    }
  }

  lemma EntryLeads(bs: seq<Blk>, base: nat, shift: nat, table: seq<nat>, j: nat) returns (k: nat)
    requires IndexOk(bs, base, shift, table) && j < |table|
    ensures Sized(bs) && k < |bs| && table[j] == 8 * At(bs, base, k) && Audios(bs, k) == Shl(j, shift)
  {
    hide Shl, Sized;
    assert Leads(bs, base, table[j], Shl(j, shift));
    k :| 0 <= k < |bs| && table[j] == 8 * At(bs, base, k) && Audios(bs, k) == Shl(j, shift);
  }

  // ----- counts and samples -----

  /** Samples in `n` blocks of `1 << pwr` frames. */
  function Samples(n: nat, pwr: nat): nat { Shl(FRAME * n, pwr) }

  lemma {:induction false} ShlTimes(x: nat, n: nat)
    ensures Shl(FRAME * x, n) == FRAME * Shl(x, n)
  {
    if n > 0 { ShlTimes(x, n - 1); }
  }

  lemma {:induction false} ShlLess(a: nat, b: nat, n: nat)
    ensures a < b <==> Shl(a, n) < Shl(b, n)
  {
    if n > 0 { ShlLess(a, b, n - 1); }
  }

  /** Comparing sample counts of the two spacings is comparing block numbers. */
  lemma Spaced(a: nat, t: nat, blockPwr: nat, shift: nat)
    ensures Samples(a, blockPwr) == Samples(t, blockPwr + shift) <==> a == Shl(t, shift)
    ensures Samples(a, blockPwr) <= Samples(t, blockPwr + shift) <==> a <= Shl(t, shift)
  {
    hide Shl;
    ShlShl(FRAME * t, shift, blockPwr);
    ShlTimes(t, shift);
    ShlLess(FRAME * a, FRAME * Shl(t, shift), blockPwr);
    ShlLess(FRAME * Shl(t, shift), FRAME * a, blockPwr);
  }

  function BlockSamples(pwr: nat): (n: nat)
    ensures n >= 1
  {
    OneBlock(pwr);
    Samples(1, pwr)
  }

  lemma OneBlock(pwr: nat)
    ensures Samples(1, pwr) == FRAME * Pow2(pwr) >= 1
  {
    hide Shl, Pow2;
    SamplesMore(0, pwr);
    SamplesZero(pwr);
    PowPos(pwr);
  }

  lemma BlockIs(pwr: nat)
    ensures BlockSamples(pwr) == FRAME * Pow2(pwr) == Samples(1, pwr)
  {
    OneBlock(pwr);
  }

  lemma SamplesZero(pwr: nat)
    ensures Samples(0, pwr) == 0
  {
    SeekTables.ShlZero(pwr);
  }

  lemma PowPos(n: nat)
    ensures Pow2(n) >= 1
  {}

  lemma SamplesMore(n: nat, pwr: nat)
    ensures Samples(n + 1, pwr) == Samples(n, pwr) + FRAME * Pow2(pwr)
  {
    hide Shl, Pow2;
    ShlPlus(FRAME * n, FRAME, pwr);
    ShlTimes(1, pwr);
    ShlPow2(pwr);
  }

  lemma {:induction false} SamplesTimes(n: nat, pwr: nat)
    ensures Samples(n, pwr) == n * BlockSamples(pwr)
  {
    hide Samples, Pow2;
    OneBlock(pwr);
    if n == 0 {
      SamplesZero(pwr);
    } else {
      SamplesTimes(n - 1, pwr);
      SamplesMore(n - 1, pwr);
      MulNext(n - 1, BlockSamples(pwr));
    }
  }

  lemma MulNext(n: nat, b: nat)
    ensures (n + 1) * b == n * b + b
  {}

  lemma SlotMore(t: nat, shift: nat)
    ensures Shl(t + 1, shift) >= Shl(t, shift) + 1
  {
    hide Shl, Pow2;
    ShlPlus(t, 1, shift);
    ShlPow2(shift);
  }

  /** `mpc_seek_table_due`. */
  predicate Due(table: seq<nat>, capacity: nat, decoded: nat, seekPwr: nat)
  {
    |table| < capacity && decoded == Samples(|table|, seekPwr)
  }

  /** All that is behind the position is in the index. */
  predicate Covered(table: seq<nat>, capacity: nat, shift: nat, n: nat) { |table| < capacity ==> n <= Shl(|table|, shift) }

  /** At a block boundary an entry is due exactly when the next audio block is the one the next entry is for. */
  lemma DueIs(table: seq<nat>, capacity: nat, blockPwr: nat, shift: nat, n: nat)
    ensures Due(table, capacity, Samples(n, blockPwr), blockPwr + shift) <==> |table| < capacity && n == Shl(|table|, shift)
  {
    hide Samples, Shl;
    Spaced(n, |table|, blockPwr, shift);
  }

  /** After the entry, if it was due, the block may pass. */
  lemma CoveredNext(table: seq<nat>, capacity: nat, shift: nat, n: nat, x: nat)
    requires Covered(table, capacity, shift, n)
    ensures n == Shl(|table|, shift) ==> Covered(table + [x], capacity, shift, n + 1)
    ensures n != Shl(|table|, shift) || |table| >= capacity ==> Covered(table, capacity, shift, n + 1)
  {
    hide Shl;
    SlotMore(|table|, shift);
  }

  lemma NotPast(fwd: nat, i: nat, shift: nat)
    requires i <= Shr(fwd, shift)
    ensures Shl(i, shift) <= fwd
  {
    hide *;
    Recompose(fwd, shift);
    ShlMono(i, Shr(fwd, shift), shift);
  }

  // ----- the steps of a scan -----

  /** Whether the seek to block `k`, or one of those behind it on the way to audio block `fwd`, lands late: from the
      state of the source and the window before it, when nothing fails. */
  ghost predicate LateScan(bs: seq<Blk>, base: nat, k: nat, fwd: nat, at: nat, total: nat, count: nat, len: nat)
    requires Sized(bs) && k < |bs|
    decreases |bs| - k
  {
    var p := 8 * At(bs, base, k);
    || IsLate(at, total, count, true, p, 11)
    || (Audios(bs, k) < fwd && k + 1 < |bs|
        && var u := Sought(at, total, count, true, len, p, 11); LateScan(bs, base, k + 1, fwd, u.0, u.1, 0, len))
  }

  lemma LateScanIs(bs: seq<Blk>, base: nat, k: nat, fwd: nat, at: nat, total: nat, count: nat, len: nat)
    requires Sized(bs) && k < |bs|
    ensures var p := 8 * At(bs, base, k);
            var u := Sought(at, total, count, true, len, p, 11);
            LateScan(bs, base, k, fwd, at, total, count, len)
            <==> IsLate(at, total, count, true, p, 11)
                 || (Audios(bs, k) < fwd && k + 1 < |bs| && LateScan(bs, base, k + 1, fwd, u.0, u.1, 0, len))
  {
    hide IsLate, Sought, At, Audios;
  }

  // ----- scans that stay in time -----

  lemma OutOfWindow(at: nat, total: nat, count: nat, len: nat, p: nat)
    requires total <= at && !(8 * (at - total) <= 8 * p < 8 * at) && p <= len
    ensures !IsLate(at, total, count, true, 8 * p, 11)
    ensures var got := if len - p < 11 then len - p else 11; Sought(at, total, count, true, len, 8 * p, 11) == (p + got, got)
  {
    assert Required(8 * p, 11) == 11;
  }

  /** If every block is at least as long as what a step reads, and the first is not in the window, no step is late. */
  lemma {:induction false} LongInTime(bs: seq<Blk>, base: nat, k: nat, fwd: nat, at: nat, total: nat, count: nat, len: nat)
    requires Sized(bs) && k < |bs| && forall i :: 0 <= i < |bs| ==> Length(bs[i]) >= 11 && At(bs, base, i) <= len
    requires total <= at && !(8 * (at - total) <= 8 * At(bs, base, k) < 8 * at)
    ensures !LateScan(bs, base, k, fwd, at, total, count, len)
    decreases |bs| - k
  {
    hide HeaderOf, IsLate, Sought, At;
    LateScanIs(bs, base, k, fwd, at, total, count, len);
    OutOfWindow(at, total, count, len, At(bs, base, k));
    if k + 1 < |bs| {
      AtStep(bs, base, k);
      var u := Sought(at, total, count, true, len, 8 * At(bs, base, k), 11);
      LongInTime(bs, base, k + 1, fwd, u.0, u.1, 0, len);
    }
  }

  // ----- a scan that goes late -----

  /** A stream that begins with `n` audio blocks of four bytes: what a frame of silence takes, alone in its block. */
  ghost predicate Fours(bs: seq<Blk>, n: nat)
  {
    Sized(bs) && n <= |bs| && forall i :: 0 <= i < n ==> Audio(bs[i]) && Length(bs[i]) == 4
  }

  lemma {:induction false} FoursAt(bs: seq<Blk>, n: nat, base: nat, k: nat)
    requires Fours(bs, n) && k <= n
    ensures Sized(bs) && k <= |bs| && At(bs, base, k) == base + 4 * k && Audios(bs, k) == k
    decreases k
  {
    hide HeaderOf;
    if k > 0 {
      FoursAt(bs, n, base, k - 1);
      assert Audio(bs[k - 1]) && Length(bs[k - 1]) == 4;
    }
  }

  lemma Eighth(base: nat, x: nat)
    ensures (8 * (base + x) - 8 * base) / 8 == x && 8 * (base + x) % 8 == 0
  {
    assert 8 * (base + x) - 8 * base == 8 * x;
  }

  /** A block found in the window, with eight bytes in it from the block on: four more are read. */
  lemma FourMore(base: nat, k: nat, len: nat)
    requires 2 <= k < 15294 && base + 61188 <= len
    ensures Sought(base + 4 * k + 8, 4 * k + 8, 0, true, len, 8 * (base + 4 * k), 11) == (base + 4 * k + 12, 4 * k + 12)
  {
    Eighth(base, 4 * k);
    assert Required(8 * (base + 4 * k), 11) == 11;
  }

  lemma FourLate(base: nat)
    ensures IsLate(base + 61184, 61184, 0, true, 8 * (base + 61176), 11)
  {
    Eighth(base, 61176);
    assert Required(8 * (base + 61176), 11) == 11;
  }

  /** Each step finds its block in the window and adds four bytes; when the window is full, the next one is late. */
  lemma {:induction false} FoursFrom(bs: seq<Blk>, n: nat, base: nat, k: nat, fwd: nat, len: nat)
    requires Fours(bs, n) && 2 <= k <= 15294 < n && 15294 <= fwd && base + 61188 <= len
    ensures Sized(bs) && k < |bs| && LateScan(bs, base, k, fwd, base + 4 * k + 8, 4 * k + 8, 0, len)
    decreases 15294 - k
  {
    hide *;
    FoursSized(bs, n);
    FoursAt(bs, n, base, k);
    LateScanIs(bs, base, k, fwd, base + 4 * k + 8, 4 * k + 8, 0, len);
    if k < 15294 {
      FourMore(base, k, len);
      FoursFrom(bs, n, base, k + 1, fwd, len);
    } else {
      FourLate(base);
    }
  }

  lemma FoursSized(bs: seq<Blk>, n: nat)
    requires Fours(bs, n)
    ensures Sized(bs) && n <= |bs|
  {}

  lemma FirstSteps(at: nat, total: nat, count: nat, base: nat, len: nat)
    requires total <= at && !(8 * (at - total) <= 8 * base < 8 * at) && base + 61188 <= len
    ensures Sought(at, total, count, true, len, 8 * base, 11) == (base + 11, 11)
    ensures Sought(base + 11, 11, 0, true, len, 8 * (base + 4), 11) == (base + 16, 16)
  {
    Eighth(base, 4);
    Eighth(base, 0);
    assert Required(8 * base, 11) == 11 && Required(8 * (base + 4), 11) == 11;
  }

  /** Without a stored table, a scan of such a stream from its first block to one behind the 15294th goes late, if the
      first block is not in the window. */
  lemma ScanGoesLate(bs: seq<Blk>, n: nat, base: nat, fwd: nat, at: nat, total: nat, count: nat, len: nat)
    requires Fours(bs, n) && 15294 < n && 15294 <= fwd && base + 61188 <= len
    requires total <= at && !(8 * (at - total) <= 8 * base < 8 * at)
    ensures Sized(bs) && 0 < |bs| && LateScan(bs, base, 0, fwd, at, total, count, len)
  {
    hide *;
    FoursSized(bs, n);
    FoursAt(bs, n, base, 0);
    FoursAt(bs, n, base, 1);
    LateScanIs(bs, base, 0, fwd, at, total, count, len);
    LateScanIs(bs, base, 1, fwd, base + 11, 11, 0, len);
    FirstSteps(at, total, count, base, len);
    FoursFrom(bs, n, base, 2, fwd, len);
  }
}
