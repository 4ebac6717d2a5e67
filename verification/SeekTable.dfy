/** The seek table: block positions as second differences, read back whole or decimated. */
module SeekTables {
  import opened BitStrings
  import opened BitWriting
  import opened Integers
  import opened Golomb
  import opened Sizes

  datatype Option<T> = None | Some(value: T)

  const U64_MAX: nat := 0xFFFF_FFFF_FFFF_FFFF
  const MAX_SEEK_TABLE_SIZE: nat := 65536

  // ----- what is written -----

  /** The change of the block length at entry `i`. */
  function Diff(t: seq<nat>, i: nat): int
    requires 2 <= i < |t|
  {
    t[i] as int - 2 * t[i - 1] as int + t[i - 2] as int
  }

  /** `mpc_enc_seek_delta`: magnitude and sign, cut to 32 bits. */
  function SeekDelta(diff: int): nat
  {
    ((if diff < 0 then -2 * diff + 1 else 2 * diff) % 0x1_0000_0000) as nat
  }

  function TailBits(t: seq<nat>, i: nat): Bits
    requires 2 <= i
    decreases |t| - i
  {
    if i >= |t| then [] else GolombBits(SeekDelta(Diff(t, i)), 12) + TailBits(t, i + 1)
  }

  /** Positions the format can hold: nondecreasing, not before the reference, and below 2^60. */
  ghost predicate TableOk(t: seq<nat>, ref: nat, header: nat)
  {
    && 1 <= |t| < 0x1_0000_0000
    && (forall i :: 0 <= i < |t| ==> ref <= t[i] && t[i] - ref + header < 0x1000_0000_0000_0000)
    && (forall i :: 1 <= i < |t| ==> t[i - 1] <= t[i])
  }

  lemma OffsetFits(v: nat)
    requires v < 0x1000_0000_0000_0000
    ensures Fits(v, false, 9)
  {
    hide Pow128;
    Pow128Nine();
  }

  ghost function SizeBits(v: nat): Bits
    requires v < 0x1000_0000_0000_0000
  {
    OffsetFits(v);
    BytesToBits(SizeCode(v, false))
  }

  /** The content of the seek table block. */
  ghost function SeekBits(t: seq<nat>, pwr: nat, ref: nat, header: nat): Bits
    requires TableOk(t, ref, header)
  {
    SizeBits(|t|)
    + (Enc(pwr, 4)
       + (SizeBits(t[0] - ref) + (if |t| > 1 then SizeBits(t[1] - ref) + TailBits(t, 2) else [])))
  }

  // ----- what is read -----

  /** `mpc_st_read_size`: at most ten digits, and no overflow. */
  function StSizeDec(s: Bits, acc: nat, n: nat): Parsed<nat>
    requires n <= 10
    decreases 10 - n
  {
    if n == 10 then NoData
    else
      var (digit, s1) :- Take(s, 8);
      if acc > 0x1FF_FFFF_FFFF_FFFF then NoData
      else if digit < 128 then Got(128 * acc + digit, s1)
      else StSizeDec(s1, 128 * acc + digit % 128, n + 1)
  }

  /** `mpc_st_read_golomb`: the value must fit a signed 32-bit integer. */
  function StGolombDec(s: Bits): Parsed<nat>
  {
    var (v, s1) :- GolombDec(s, 12);
    if v < 0x8000_0000 then Got(v, s1) else NoData
  }

  /** The difference a code stands for, in bits. */
  function Undelta(code: nat): int { if code % 2 == 1 then -4 * (code - 1) else 4 * code }

  /** The next position by linear prediction and a correction, refusing to leave the 64-bit range. */
  function Predict(before: nat, last: nat, delta: int): Option<nat>
  {
    if last > U64_MAX / 2 || 2 * last < before then None
    else
      var value := 2 * last - before;
      if (delta < 0 && value < -delta) || (delta >= 0 && value > U64_MAX - delta) then None
      else Some(value + delta)
  }

  /** An entry is accepted exactly if it can be computed in 64 bits without a wrap: twice the last one, that less the one
      before, and the sum. */
  lemma PredictExact(before: nat, last: nat, delta: int)
    ensures Predict(before, last, delta).Some?
       <==> 2 * last <= 0xFFFF_FFFF_FFFF_FFFF && before <= 2 * last && 0 <= 2 * last - before + delta <= 0xFFFF_FFFF_FFFF_FFFF
    ensures Predict(before, last, delta).Some? ==> Predict(before, last, delta).value == 2 * last - before + delta
  {}

  /** Entries `i` to `n - 1`. */
  function TailDec(s: Bits, i: nat, n: nat, before: nat, last: nat): (p: Parsed<seq<nat>>)
    ensures p.Got? ==> |p.value| == if i < n then n - i else 0
    decreases n - i
  {
    if i >= n then Got([], s)
    else
      var (code, s1) :- StGolombDec(s);
      match Predict(before, last, Undelta(code))
      case None => NoData
      case Some(next) =>
        var (more, s2) :- TailDec(s1, i + 1, n, last, next);
        Got([next] + more, s2)
  }

  /** What the reader knows of the stream. */
  datatype Info = Info(samples: nat, blockPwr: nat, header: int)

  datatype Index = Index(table: seq<nat>, pwr: nat)

  /** Samples between entries. */
  function Spacing(pwr: nat): (n: nat)
    ensures n >= 1
  {
    ShlMono(1, 1152, pwr);
    ShlPow2(pwr);
    Shl(1152, pwr)
  }

  /** `mpc_seek_table_entries`: room for one entry every 1152 << `pwr` samples. */
  function Entries(samples: nat, pwr: nat): (n: Option<nat>)
    ensures n.Some? ==> n.value >= 2
  {
    if pwr >= 64 || Spacing(pwr) > U64_MAX then None else Some(2 + samples / Spacing(pwr))
  }

  datatype Coarse = Coarse(cap: nat, pwr: nat, diff: nat)

  /** There is room exactly if the spacing is a 64-bit number, and then for two entries more than spacings fit. */
  lemma EntriesExact(samples: nat, pwr: nat)
    ensures Spacing(pwr) == 1152 * Pow2(pwr)
    ensures Entries(samples, pwr).Some? <==> Spacing(pwr) <= 0xFFFF_FFFF_FFFF_FFFF
    ensures Entries(samples, pwr).Some? ==> Entries(samples, pwr).value == 2 + samples / Spacing(pwr)
  {
    SpacingIs(pwr);
    hide Pow2, Spacing;
    if pwr >= 64 {
      Pow2Mono(64, pwr);
      PowerOf64();
    }
  }

  lemma SpacingIs(pwr: nat)
    ensures Spacing(pwr) == 1152 * Pow2(pwr)
  {
    ShlMul(1152, pwr);
  }

  lemma PowerOf64()
    ensures Pow2(64) == 0x1_0000_0000_0000_0000
  {
    hide Pow2;
    Pow2Facts();
    ShlPow2(32);
    ShlPow2(64);
    ShlShl(1, 32, 32);
    ShlMul(Pow2(32), 32);
  }

  /** Doubling the spacing until the table is small enough. */
  function Coarsen(samples: nat, pwr: nat, diff: nat): (c: Option<Coarse>)
    requires diff <= 31
    ensures c.Some? ==> 2 <= c.value.cap <= MAX_SEEK_TABLE_SIZE && diff <= c.value.diff <= 31
    ensures c.Some? ==> c.value.pwr - pwr == c.value.diff - diff
    decreases 31 - diff
  {
    match Entries(samples, pwr)
    case None => None
    case Some(n) =>
      if n <= MAX_SEEK_TABLE_SIZE then Some(Coarse(n, pwr, diff))
      else if pwr >= 63 || diff >= 31 then None
      else Coarsen(samples, pwr + 1, diff + 1)
  }

  /** How many file entries are looked at. */
  function Clamp(n: nat, c: Coarse): nat { if Shr(n, c.diff) > c.cap then Shl(c.cap, c.diff) else n }

  /** `(n + (1 << diff) - 1) >> diff` in 32 bits. */
  function TableSize(n: nat, diff: nat): nat { Shr(Low(n + Pow2(diff) - 1, 32), diff) }

  /** `8 * (offset + header)`, if that is a 64-bit number. */
  function Start(offset: nat, header: int): Option<nat>
  {
    if header < 0 || offset + header > U64_MAX / 8 then None else Some(8 * (offset + header))
  }

  /** A stored offset is accepted exactly if its place in bits is a 64-bit number. */
  lemma StartExact(offset: nat, header: int)
    ensures Start(offset, header).Some? <==> header >= 0 && 8 * (offset + header) <= 0xFFFF_FFFF_FFFF_FFFF
    ensures Start(offset, header).Some? ==> Start(offset, header).value == 8 * (offset + header)
  {}

  function Pick(full: seq<nat>, diff: nat, size: nat): (t: seq<nat>)
    requires size > 0 ==> Shl(size - 1, diff) < |full|
    ensures |t| == size
  {
    if size == 0 then []
    else
      (if size > 1 then ShlMono(size - 2, size - 1, diff); Pick(full, diff, size - 1) else [])
      + [full[Shl(size - 1, diff)]]
  }

  lemma PickIs(full: seq<nat>, diff: nat, size: nat)
    requires size > 0 && Shl(size - 1, diff) < |full|
    ensures size > 1 ==> Shl(size - 2, diff) < |full|
    ensures Pick(full, diff, size) == (if size > 1 then Pick(full, diff, size - 1) else []) + [full[Shl(size - 1, diff)]]
  {
    if size > 1 { ShlMono(size - 2, size - 1, diff); }
    hide Shl;
  }

  lemma {:induction false} PickAt(full: seq<nat>, diff: nat, size: nat, j: nat)
    requires j < size && Shl(size - 1, diff) < |full|
    ensures Shl(j, diff) < |full| && Pick(full, diff, size)[j] == full[Shl(j, diff)]
    decreases size
  {
    hide *;
    PickIs(full, diff, size);
    ShlMono(j, size - 1, diff);
    if j < size - 1 { PickAt(full, diff, size - 1, j); }
  }

  lemma {:induction false} Pow2Low(a: nat, n: nat)
    requires a < Pow2(n)
    ensures Shr(a, n) == 0
  {
    ShrBound(a, 0, n);
  }

  /** Rounding up: the last kept entry is the last multiple of 2^diff below `n`. */
  lemma SizeReach(n: nat, diff: nat)
    requires TableSize(n, diff) > 0
    ensures Shl(TableSize(n, diff) - 1, diff) < n
  {
    hide *;
    SizeIs(n, diff);
    var m := n + Pow2(diff) - 1;
    var v := Low(m, 32);
    LowLe(m, 32);
    Recompose(v, diff);
    ShlPlus(TableSize(n, diff) - 1, 1, diff);
    ShlPow2(diff);
  }

  lemma SizeIs(n: nat, diff: nat)
    ensures Pow2(diff) >= 1 && TableSize(n, diff) == Shr(Low(n + Pow2(diff) - 1, 32), diff)
  {}

  lemma LowLe(v: nat, n: nat)
    ensures Low(v, n) <= v
  {
    hide *;
    Recompose(v, n);
  }

  /** The entries kept when the file's are `n`. */
  function Kept(n: nat, c: Coarse): nat { TableSize(Clamp(n, c), c.diff) }

  /** The entries of a table that keeps `size` of the first `n`. */
  function STEntries(s: Bits, header: int, n: nat, diff: nat, size: nat): Parsed<seq<nat>>
    requires size >= 1 && size == TableSize(n, diff)
  {
    var (a, s1) :- StSizeDec(s, 0, 0);
    match Start(a, header)
    case None => NoData
    case Some(first) =>
      if size == 1 then Got([first], s1)
      else
        var (x, s2) :- StSizeDec(s1, 0, 0);
        match Start(x, header)
        case None => NoData
        case Some(second) =>
          var (tail, s3) :- TailDec(s2, 2, n, first, second);
          SizeReach(n, diff);
          KeptTwo(n, diff, size);
          Got(Pick([first, second] + tail, diff, size), s3)
  }

  /** `mpc_demux_ST`. */
  function STParse(s: Bits, info: Info): Parsed<Index>
  {
    var (n, s1) :- StSizeDec(s, 0, 0);
    if n == 0 || n >= 0x1_0000_0000 then NoData
    else
      var (step, s2) :- Take(s1, 4);
      match Coarsen(info.samples, info.blockPwr + step, 0)
      case None => NoData
      case Some(c) =>
        if Kept(n, c) == 0 || Kept(n, c) > c.cap then NoData
        else
          var (table, s3) :- STEntries(s2, info.header, Clamp(n, c), c.diff, Kept(n, c));
          Got(Index(table, c.pwr), s3)
  }

  lemma KeptTwo(n: nat, diff: nat, size: nat)
    requires size >= 2 && size == TableSize(n, diff)
    ensures n >= 2
  {
    SizeReach(n, diff);
    ShlMono(1, size - 1, diff);
    ShlPow2(diff);
    Pow2Pos(diff);
  }

  lemma Pow2Pos(n: nat)
    ensures Pow2(n) >= 1
  {}

  // ----- self-delimiting numbers -----

  lemma StTake(b: Byte, acc: nat, n: nat, rest: Bits)
    requires n < 10 && acc <= 0x1FF_FFFF_FFFF_FFFF
    ensures b < 128 ==> StSizeDec(BytesToBits([b]) + rest, acc, n) == Got(128 * acc + b as nat, rest)
    ensures b >= 128 ==>
              StSizeDec(BytesToBits([b]) + rest, acc, n) == StSizeDec(rest, 128 * acc + b as nat % 128, n + 1)
  {
    hide Take, BytesToBits;
    TakeByte(b, rest);
  }

  lemma {:induction false} StHead(v: nat, i: nat, rest: Bits)
    requires i <= 9 && v < Pow128(i) && v < 0x1_0000_0000_0000_0000
    ensures StSizeDec(BytesToBits(Head(v, i)) + rest, 0, 0) == StSizeDec(rest, v, i)
  {
    hide *;
    HeadNone(v, rest);
    if i != 0 {
      var b := (128 + v % 128) as Byte;
      HeadSplit(v, i, rest);
      Pow128Div(v, i);
      StHead(v / 128, i - 1, BytesToBits([b]) + rest);
      StTake(b, v / 128, i - 1, rest);
    }
  }

  lemma StSizeRoundTrip(v: nat, rest: Bits)
    requires v < 0x1000_0000_0000_0000
    ensures StSizeDec(SizeBits(v) + rest, 0, 0) == Got(v, rest)
  {
    hide *;
    OffsetFits(v);
    SizeBitsIs(v);
    SizeCodeIs(v, false);
    var i := SizeLen(v, false);
    SizeLenIs(v);
    Pow128Div(v, i);
    var d := (v % 128) as Byte;
    BytesConcat(Head(v / 128, i - 1), [d]);
    Assoc(BytesToBits(Head(v / 128, i - 1)), BytesToBits([d]), rest);
    StHead(v / 128, i - 1, BytesToBits([d]) + rest);
    StTake(d, v / 128, i - 1, rest);
  }

  lemma SizeBitsIs(v: nat)
    requires v < 0x1000_0000_0000_0000 && Fits(v, false, 9)
    ensures SizeBits(v) == BytesToBits(SizeCode(v, false))
  {}

  lemma SizeLenIs(v: nat)
    requires Fits(v, false, 9)
    ensures 1 <= SizeLen(v, false) <= 9 && v < Pow128(SizeLen(v, false))
  {
    hide Pow128;
  }

  // ----- the differences -----

  lemma DeltaInverse(diff: int)
    requires -0x4000_0000 < diff < 0x4000_0000
    ensures SeekDelta(diff) < 0x8000_0000 && Undelta(SeekDelta(diff)) == 8 * diff
  {}

  /** A difference outside the range either has no code the reader accepts, or one that means another. */
  lemma DeltaLost(diff: int)
    requires !(-0x4000_0000 < diff < 0x4000_0000)
    ensures SeekDelta(diff) >= 0x8000_0000 || Undelta(SeekDelta(diff)) != 8 * diff
  {}

  ghost predicate Small(t: seq<nat>, i: nat)
    requires 2 <= i < |t|
  {
    -0x4000_0000 < Diff(t, i) < 0x4000_0000
  }

  /** The position of entry `i` as the reader should see it, in bits. */
  function At(t: seq<nat>, ref: nat, header: nat, i: nat): int
    requires i < |t|
  {
    8 * (t[i] - ref + header)
  }

  function AtFrom(t: seq<nat>, ref: nat, header: nat, i: nat, n: nat): (xs: seq<int>)
    requires n <= |t|
    ensures |xs| == if i < n then n - i else 0
    decreases n - i
  {
    if i >= n then [] else [At(t, ref, header, i)] + AtFrom(t, ref, header, i + 1, n)
  }

  lemma {:induction false} AtFromAt(t: seq<nat>, ref: nat, header: nat, i: nat, n: nat, k: nat)
    requires i <= k < n <= |t|
    ensures AtFrom(t, ref, header, i, n)[k - i] == At(t, ref, header, k)
    decreases n - i
  {
    if i < k { AtFromAt(t, ref, header, i + 1, n, k); }
  }

  /** Prediction from true positions, corrected by the true difference, is the true position. */
  lemma PredictTrue(t: seq<nat>, ref: nat, header: nat, i: nat, delta: int)
    requires TableOk(t, ref, header) && 2 <= i < |t|
    ensures At(t, ref, header, i - 2) >= 0 && At(t, ref, header, i - 1) >= 0 && At(t, ref, header, i) >= 0
    ensures var p := Predict(At(t, ref, header, i - 2), At(t, ref, header, i - 1), delta);
            p == Some(At(t, ref, header, i) as nat) <==> delta == 8 * Diff(t, i)
  {
    assert t[i - 2] <= t[i - 1] <= t[i];
  }

  lemma TailStep(t: seq<nat>, i: nat, rest: Bits)
    requires 2 <= i < |t|
    ensures TailBits(t, i) + rest == GolombBits(SeekDelta(Diff(t, i)), 12) + (TailBits(t, i + 1) + rest)
  {
    hide GolombBits, SeekDelta;
    Assoc(GolombBits(SeekDelta(Diff(t, i)), 12), TailBits(t, i + 1), rest);
  }

  lemma StGolombRoundTrip(v: nat, rest: Bits)
    ensures StGolombDec(GolombBits(v, 12) + rest) == if v < 0x8000_0000 then Got(v, rest) else NoData
  {
    hide GolombBits, GolombDec;
    GolombRoundTrip(v, 12, rest);
  }

  lemma TailDecIs(s: Bits, i: nat, n: nat, before: nat, last: nat)
    ensures i >= n ==> TailDec(s, i, n, before, last) == Got([], s)
    ensures i < n && StGolombDec(s).NoData? ==> TailDec(s, i, n, before, last).NoData?
    ensures i < n && StGolombDec(s).Got? ==>
              var next := Predict(before, last, Undelta(StGolombDec(s).value));
              (next.None? ==> TailDec(s, i, n, before, last).NoData?)
              && (next.Some? ==>
                    var more := TailDec(StGolombDec(s).rest, i + 1, n, last, next.value);
                    TailDec(s, i, n, before, last)
                    == if more.NoData? then NoData else Got([next.value] + more.value, more.rest))
  {
    hide StGolombDec, Predict, Undelta;
  }

  /** The first `n` entries come back, if all their differences are small. */
  lemma {:induction false} TailRoundTrip(t: seq<nat>, ref: nat, header: nat, i: nat, n: nat, rest: Bits)
    requires TableOk(t, ref, header) && 2 <= i && n <= |t| && i <= |t|
    requires forall j :: i <= j < n ==> Small(t, j)
    requires At(t, ref, header, i - 2) >= 0 && At(t, ref, header, i - 1) >= 0
    ensures var p := TailDec(TailBits(t, i) + rest, i, n, At(t, ref, header, i - 2), At(t, ref, header, i - 1));
            p.Got? && p.value == AtFrom(t, ref, header, i, n)
    decreases n - i
  {
    hide *;
    var s, before, last := TailBits(t, i) + rest, At(t, ref, header, i - 2), At(t, ref, header, i - 1);
    TailDecIs(s, i, n, before, last);
    AtFromIs(t, ref, header, i, n);
    if i < n {
      assert Small(t, i);
      SmallIs(t, i);
      TailStep(t, i, rest);
      var tail := TailBits(t, i + 1) + rest;
      DeltaInverse(Diff(t, i));
      StGolombRoundTrip(SeekDelta(Diff(t, i)), tail);
      PredictTrue(t, ref, header, i, 8 * Diff(t, i));
      TailRoundTrip(t, ref, header, i + 1, n, rest);
    }
  }

  lemma SmallIs(t: seq<nat>, i: nat)
    requires 2 <= i < |t|
    ensures Small(t, i) <==> -0x4000_0000 < Diff(t, i) < 0x4000_0000
  {}

  lemma AtFromIs(t: seq<nat>, ref: nat, header: nat, i: nat, n: nat)
    requires n <= |t|
    ensures AtFrom(t, ref, header, i, n) == if i >= n then [] else [At(t, ref, header, i)] + AtFrom(t, ref, header, i + 1, n)
  {}

  /** Conversely, if all entries come back, all differences were small: otherwise the reader fails, or the
      first entry with a large difference comes out wrong. */
  lemma {:induction false} TailConverse(t: seq<nat>, ref: nat, header: nat, i: nat, n: nat, rest: Bits)
    requires TableOk(t, ref, header) && 2 <= i && n <= |t| && i <= |t|
    requires At(t, ref, header, i - 2) >= 0 && At(t, ref, header, i - 1) >= 0
    requires var p := TailDec(TailBits(t, i) + rest, i, n, At(t, ref, header, i - 2), At(t, ref, header, i - 1));
             p.Got? && p.value == AtFrom(t, ref, header, i, n)
    ensures forall j :: i <= j < n ==> Small(t, j)
    decreases n - i
  {
    hide *;
    var s, before, last := TailBits(t, i) + rest, At(t, ref, header, i - 2), At(t, ref, header, i - 1);
    TailDecIs(s, i, n, before, last);
    AtFromIs(t, ref, header, i, n);
    if i < n {
      TailStep(t, i, rest);
      var tail := TailBits(t, i + 1) + rest;
      var code := SeekDelta(Diff(t, i));
      StGolombRoundTrip(code, tail);
      var next := Predict(before, last, Undelta(code));
      var more := TailDec(tail, i + 1, n, last, next.value);
      HeadsEqual(next.value, more.value, At(t, ref, header, i), AtFrom(t, ref, header, i + 1, n));
      PredictTrue(t, ref, header, i, Undelta(code));
      SmallIs(t, i);
      if !Small(t, i) { DeltaLost(Diff(t, i)); }
      TailConverse(t, ref, header, i + 1, n, rest);
    }
  }

  lemma HeadsEqual(x: nat, xs: seq<nat>, y: int, ys: seq<int>)
    requires [x] + xs == [y] + ys
    ensures x == y && xs == ys
  {
    assert ([x] + xs)[0] == ([y] + ys)[0];
    assert ([x] + xs)[1..] == xs && ([y] + ys)[1..] == ys;
  }

  // ----- the whole table -----

  ghost function EntriesBits(t: seq<nat>, ref: nat, header: nat): Bits
    requires TableOk(t, ref, header)
  {
    SizeBits(t[0] - ref) + (if |t| > 1 then SizeBits(t[1] - ref) + TailBits(t, 2) else [])
  }

  lemma EntriesIs(t: seq<nat>, ref: nat, header: nat, rest: Bits)
    requires TableOk(t, ref, header)
    ensures 1 <= |t| && t[0] - ref >= 0 && t[0] - ref + header < 0x1000_0000_0000_0000
    ensures |t| > 1 ==> t[1] - ref >= 0 && t[1] - ref + header < 0x1000_0000_0000_0000
    ensures |t| == 1 ==> EntriesBits(t, ref, header) + rest == SizeBits(t[0] - ref) + rest
    ensures |t| > 1 ==>
              EntriesBits(t, ref, header) + rest == SizeBits(t[0] - ref) + (SizeBits(t[1] - ref) + (TailBits(t, 2) + rest))
  {
    hide SizeBits, TailBits;
    if |t| > 1 {
      var x, y, z := SizeBits(t[0] - ref), SizeBits(t[1] - ref), TailBits(t, 2);
      Assoc(x, y + z, rest);
      Assoc(y, z, rest);
    } else {
      assert SizeBits(t[0] - ref) + [] == SizeBits(t[0] - ref);
    }
  }

  lemma StartAt(t: seq<nat>, ref: nat, header: nat, i: nat)
    requires TableOk(t, ref, header) && i < |t|
    ensures t[i] - ref >= 0 && At(t, ref, header, i) >= 0
    ensures Start(t[i] - ref, header) == Some(At(t, ref, header, i) as nat)
  {}

  lemma STEntriesIs(s: Bits, header: int, n: nat, diff: nat, size: nat, a: nat, s1: Bits, first: nat)
    requires size >= 1 && size == TableSize(n, diff)
    requires StSizeDec(s, 0, 0) == Got(a, s1) && Start(a, header) == Some(first)
    ensures size == 1 ==> STEntries(s, header, n, diff, size) == Got([first], s1)
    ensures size > 1 && StSizeDec(s1, 0, 0).Got? && Start(StSizeDec(s1, 0, 0).value, header).Some? ==>
              n >= 2
              && var second := Start(StSizeDec(s1, 0, 0).value, header).value;
              var p := TailDec(StSizeDec(s1, 0, 0).rest, 2, n, first, second);
              (p.NoData? ==> STEntries(s, header, n, diff, size).NoData?)
              && (p.Got? ==>
                    Shl(size - 1, diff) < |[first, second] + p.value|
                    && STEntries(s, header, n, diff, size) == Got(Pick([first, second] + p.value, diff, size), p.rest))
  {
    SizeReach(n, diff);
    if size > 1 { KeptTwo(n, diff, size); }
    hide StSizeDec, Start, TailDec, TableSize, Pick, Shl;
  }

  /** The full-resolution list: the two plain entries and the predicted ones. */
  lemma FullAt(t: seq<nat>, ref: nat, header: nat, n: nat, tail: seq<nat>, k: nat)
    requires TableOk(t, ref, header) && 2 <= n <= |t| && tail == AtFrom(t, ref, header, 2, n) && k < n
    requires At(t, ref, header, 0) >= 0 && At(t, ref, header, 1) >= 0
    ensures |[At(t, ref, header, 0) as nat, At(t, ref, header, 1) as nat] + tail| == n
    ensures ([At(t, ref, header, 0) as nat, At(t, ref, header, 1) as nat] + tail)[k] == At(t, ref, header, k)
  {
    hide At, AtFrom;
    if k >= 2 { AtFromAt(t, ref, header, 2, n, k); }
  }

  lemma EntriesRoundTrip(t: seq<nat>, ref: nat, header: nat, n: nat, diff: nat, size: nat, rest: Bits)
    requires TableOk(t, ref, header) && n <= |t| && size >= 1 && size == TableSize(n, diff)
    requires size > 1 ==> forall j :: 2 <= j < n ==> Small(t, j)
    ensures var p := STEntries(EntriesBits(t, ref, header) + rest, header, n, diff, size);
            && p.Got? && |p.value| == size
            && forall j :: 0 <= j < size ==> Shl(j, diff) < |t| && p.value[j] == At(t, ref, header, Shl(j, diff))
  {
    hide *;
    var s := EntriesBits(t, ref, header) + rest;
    EntriesIs(t, ref, header, rest);
    StartAt(t, ref, header, 0);
    SizeReach(n, diff);
    var first := At(t, ref, header, 0) as nat;
    if |t| == 1 {
      OneKept(n, diff, size);
      StSizeRoundTrip(t[0] - ref, rest);
      STEntriesIs(s, header, n, diff, size, t[0] - ref, rest, first);
      ShlZero(diff);
    } else {
      var s2 := TailBits(t, 2) + rest;
      var s1 := SizeBits(t[1] - ref) + s2;
      StSizeRoundTrip(t[0] - ref, s1);
      StSizeRoundTrip(t[1] - ref, s2);
      StartAt(t, ref, header, 1);
      STEntriesIs(s, header, n, diff, size, t[0] - ref, s1, first);
      ShlZero(diff);
      if size > 1 {
        KeptTwo(n, diff, size);
        TailRoundTrip(t, ref, header, 2, n, rest);
        var second := At(t, ref, header, 1) as nat;
        var tail := TailDec(s2, 2, n, first, second).value;
        var full := [first, second] + tail;
        forall j | 0 <= j < size
          ensures Shl(j, diff) < |t| && Pick(full, diff, size)[j] == At(t, ref, header, Shl(j, diff))
        {
          FullAt(t, ref, header, n, tail, 0);
          PickAt(full, diff, size, j);
          FullAt(t, ref, header, n, tail, Shl(j, diff));
        }
      }
    }
  }

  lemma OneKept(n: nat, diff: nat, size: nat)
    requires n <= 1 && size >= 1 && size == TableSize(n, diff)
    ensures size == 1
  {
    hide *;
    SizeReach(n, diff);
    if size > 1 {
      ShlMono(1, size - 1, diff);
      ShlPow2(diff);
      Pow2Pos(diff);
    }
  }

  lemma {:induction false} ShlZero(n: nat)
    ensures Shl(0, n) == 0
  {
    if n > 0 { ShlZero(n - 1); }
  }

  lemma ClampLe(n: nat, c: Coarse)
    ensures Clamp(n, c) <= n && Kept(n, c) == TableSize(Clamp(n, c), c.diff)
  {
    hide Shl, Shr, Low, TableSize;
    Recompose(n, c.diff);
    if Shr(n, c.diff) > c.cap { ShlMono(c.cap, Shr(n, c.diff), c.diff); }
  }

  lemma SeekBitsIs(t: seq<nat>, pwr: nat, ref: nat, header: nat, rest: Bits)
    requires TableOk(t, ref, header)
    ensures 1 <= |t| < 0x1_0000_0000
    ensures SeekBits(t, pwr, ref, header) + rest
         == SizeBits(|t|) + (Enc(pwr, 4) + (EntriesBits(t, ref, header) + rest))
  {
    hide SizeBits, TailBits, Enc;
    var x, y, z := SizeBits(|t|), Enc(pwr, 4), EntriesBits(t, ref, header);
    Assoc(x, y + z, rest);
    Assoc(y, z, rest);
  }

  lemma STParseIs(s: Bits, info: Info, n: nat, s1: Bits, step: nat, s2: Bits, c: Coarse)
    requires StSizeDec(s, 0, 0) == Got(n, s1) && 0 < n < 0x1_0000_0000 && Take(s1, 4) == Got(step, s2)
    requires Coarsen(info.samples, info.blockPwr + step, 0) == Some(c)
    ensures Kept(n, c) == 0 || Kept(n, c) > c.cap ==> STParse(s, info).NoData?
    ensures 1 <= Kept(n, c) <= c.cap ==>
              var p := STEntries(s2, info.header, Clamp(n, c), c.diff, Kept(n, c));
              (p.NoData? ==> STParse(s, info).NoData?)
              && (p.Got? ==> STParse(s, info) == Got(Index(p.value, c.pwr), p.rest))
  {
    hide StSizeDec, Take, Coarsen, STEntries, Clamp, TableSize;
  }

  lemma SeekParse(t: seq<nat>, pwr: nat, ref: nat, info: Info, c: Coarse, rest: Bits)
    requires info.header >= 0 && TableOk(t, ref, info.header) && pwr < 16
    requires Coarsen(info.samples, info.blockPwr + pwr, 0) == Some(c)
    ensures Clamp(|t|, c) <= |t| && Kept(|t|, c) == TableSize(Clamp(|t|, c), c.diff)
    ensures 1 <= Kept(|t|, c) <= c.cap ==>
              var p := STEntries(EntriesBits(t, ref, info.header) + rest, info.header, Clamp(|t|, c), c.diff, Kept(|t|, c));
              var q := STParse(SeekBits(t, pwr, ref, info.header) + rest, info);
              (p.NoData? ==> q.NoData?) && (p.Got? ==> q == Got(Index(p.value, c.pwr), p.rest))
    ensures !(1 <= Kept(|t|, c) <= c.cap) ==> STParse(SeekBits(t, pwr, ref, info.header) + rest, info).NoData?
  {
    hide *;
    SeekBitsIs(t, pwr, ref, info.header, rest);
    var s2 := EntriesBits(t, ref, info.header) + rest;
    StSizeRoundTrip(|t|, Enc(pwr, 4) + s2);
    Pow2Facts();
    TakeEnc(pwr, 4, s2);
    ClampLe(|t|, c);
    STParseIs(SeekBits(t, pwr, ref, info.header) + rest, info, |t|, Enc(pwr, 4) + s2, pwr, s2, c);
  }

  /** Entry `j` of the table the reader keeps is entry `j << diff` of the one that was written, as a bit
      position from the start of the file; it keeps one entry per `1 << diff`, its spacing says so, and the
      whole is accepted exactly when the count fits the reader's capacity. */
  lemma SeekTableRoundTrip(t: seq<nat>, pwr: nat, ref: nat, info: Info, c: Coarse, rest: Bits)
    requires info.header >= 0 && TableOk(t, ref, info.header) && pwr < 16
    requires Coarsen(info.samples, info.blockPwr + pwr, 0) == Some(c)
    requires forall i :: 2 <= i < |t| ==> Small(t, i)
    ensures var p := STParse(SeekBits(t, pwr, ref, info.header) + rest, info);
            && (p.Got? <==> 1 <= Kept(|t|, c) <= c.cap)
            && (p.Got? ==>
                  && p.value.pwr == info.blockPwr + pwr + c.diff && |p.value.table| == Kept(|t|, c)
                  && forall j :: 0 <= j < |p.value.table| ==>
                       Shl(j, c.diff) < |t| && p.value.table[j] == At(t, ref, info.header, Shl(j, c.diff)))
  {
    hide *;
    SeekParse(t, pwr, ref, info, c, rest);
    CoarsenPwr(info.samples, info.blockPwr + pwr, c);
    if 1 <= Kept(|t|, c) <= c.cap {
      EntriesRoundTrip(t, ref, info.header, Clamp(|t|, c), c.diff, Kept(|t|, c), rest);
    }
  }

  lemma CoarsenPwr(samples: nat, pwr: nat, c: Coarse)
    requires Coarsen(samples, pwr, 0) == Some(c)
    ensures c.pwr == pwr + c.diff && 2 <= c.cap
  {
    hide Coarsen;
  }

  lemma AllKept(n: nat, c: Coarse)
    requires c.diff == 0 && 1 <= n <= c.cap && n < 0x1_0000_0000
    ensures Clamp(n, c) == n && Kept(n, c) == n && TableSize(n, 0) == n
  {
    Pow2Facts();
    LowId(n, 32);
  }

  /** Without decimation the reader recovers the whole table if and only if every second difference is
      below 2^30 in magnitude; beyond that it reports failure or gets an entry wrong. */
  lemma SeekTableExact(t: seq<nat>, pwr: nat, ref: nat, info: Info, c: Coarse, rest: Bits)
    requires info.header >= 0 && TableOk(t, ref, info.header) && pwr < 16
    requires Coarsen(info.samples, info.blockPwr + pwr, 0) == Some(c) && c.diff == 0 && |t| <= c.cap
    ensures var p := STParse(SeekBits(t, pwr, ref, info.header) + rest, info);
            (p.Got? && |p.value.table| == |t| && forall j :: 0 <= j < |t| ==> p.value.table[j] == At(t, ref, info.header, j))
            <==> forall i :: 2 <= i < |t| ==> Small(t, i)
  {
    hide *;
    SeekBitsIs(t, pwr, ref, info.header, rest);
    AllKept(|t|, c);
    SeekParse(t, pwr, ref, info, c, rest);
    ShlNone();
    if forall i :: 2 <= i < |t| ==> Small(t, i) {
      SeekTableRoundTrip(t, pwr, ref, info, c, rest);
    }
    var p := STParse(SeekBits(t, pwr, ref, info.header) + rest, info);
    if p.Got? && |p.value.table| == |t| && |t| > 1 && forall j :: 0 <= j < |t| ==> p.value.table[j] == At(t, ref, info.header, j) {
      SmallNeeded(t, ref, info.header, rest, p.value.table);
    }
  }

  /** A difference of 2^30 is lost: the table of three blocks whose second holds a gigabyte. */
  lemma LargeLost(rest: Bits)
    ensures var t: seq<nat> := [0, 0, 0x4000_0000]; var info := Info(1152, 0, 0);
            && TableOk(t, 0, 0) && Coarsen(1152, 0, 0) == Some(Coarse(3, 0, 0)) && !Small(t, 2)
            && var p := STParse(SeekBits(t, 0, 0, 0) + rest, info);
               !(p.Got? && |p.value.table| == |t| && forall j :: 0 <= j < |t| ==> p.value.table[j] == At(t, 0, 0, j))
  {
    var t: seq<nat> := [0, 0, 0x4000_0000];
    ShlNone();
    assert Entries(1152, 0) == Some(3);
    assert !Small(t, 2);
    hide STParse, SeekBits, Small;
    SeekTableExact(t, 0, 0, Info(1152, 0, 0), Coarse(3, 0, 0), rest);
  }

  // ----- decimated tables that are refused -----

  /** A table of equal blocks. */
  function Evenly(n: nat, size: nat): (t: seq<nat>)
    ensures |t| == n
  {
    seq(n, i requires 0 <= i < n => i * size)
  }

  lemma EvenlyOk(n: nat)
    requires 1 <= n < 0x10_0000
    ensures TableOk(Evenly(n, 1000), 0, 0) && forall i :: 2 <= i < n ==> Small(Evenly(n, 1000), i)
  {}

  lemma HalvedOnce(samples: nat)
    requires samples == 1152 * 65535
    ensures Coarsen(samples, 0, 0) == Some(Coarse(32769, 1, 1))
  {
    hide Coarsen;
    CoarsenIs(samples, 0, 0);
    CoarsenIs(samples, 1, 1);
    assert Shl(1152, 0) == 1152 && Shl(1152, 1) == 2304;
  }

  lemma KeptHalf(n: nat)
    requires n < 0x10_0000
    ensures var c := Coarse(32769, 1, 1); Kept(n, c) == (if n / 2 > 32769 then 32769 else (n + 1) / 2)
  {
    hide Low, Pow2;
    assert Pow2(1) == 2 by { Pow2Step(0); Pow2Zero(); }
    Pow2Facts();
    LowId(n + 1, 32);
    LowId(2 * 32769 + 1, 32);
    assert Shr(n, 1) == n / 2 && Shr(n + 1, 1) == (n + 1) / 2 && Shr(65539, 1) == 32769;
    assert Shl(32769, 1) == 65538;
    assert TableSize(n, 1) == (n + 1) / 2 && TableSize(65538, 1) == 32769;
  }

  lemma Pow2Zero()
    ensures Pow2(0) == 1
  {}

  /** The decimating reader refuses a table of 65539 entries, because it would keep one more than it has room for,
      and takes the table of 65540, of which it leaves the last two unread. */
  lemma DecimatedRefused(rest: Bits)
    ensures TableOk(Evenly(65539, 1000), 0, 0) && TableOk(Evenly(65540, 1000), 0, 0)
    ensures Kept(65539, Coarse(32769, 1, 1)) == 32769 + 1
    ensures STParse(SeekBits(Evenly(65539, 1000), 0, 0, 0) + rest, Info(1152 * 65535, 0, 0)).NoData?
    ensures STParse(SeekBits(Evenly(65540, 1000), 0, 0, 0) + rest, Info(1152 * 65535, 0, 0)).Got?
  {
    hide *;
    var samples: nat := 1152 * 65535;
    HalvedOnce(samples);
    KeptHalf(65539);
    KeptHalf(65540);
    var t, u := Evenly(65539, 1000), Evenly(65540, 1000);
    EvenlyOk(65539);
    EvenlyOk(65540);
    SeekTableRoundTrip(t, 0, 0, Info(samples, 0, 0), Coarse(32769, 1, 1), rest);
    SeekTableRoundTrip(u, 0, 0, Info(samples, 0, 0), Coarse(32769, 1, 1), rest);
  }

  // ----- tables of the writer's length -----

  lemma HalfDiv(a: nat, x: nat)
    requires x >= 1
    ensures a / (2 * x) == a / 2 / x
  {
    var h := a / 2;
    var q := h / x;
    assert h == x * q + h % x;
    assert a == (2 * x) * q + (2 * (h % x) + a % 2);
    DivUnique(a, 2 * x, q, 2 * (h % x) + a % 2);
  }

  lemma DivUnique(a: nat, b: nat, q: nat, r: nat)
    requires b >= 1 && a == b * q + r && r < b
    ensures a / b == q
  {
    var p := a / b;
    assert a == b * p + a % b;
    if p != q { Apart(b, if p < q then q - p else p - q); }
    assert b * p - b * q == b * (p - q);
  }

  lemma Apart(b: nat, d: nat)
    requires d >= 1
    ensures b * d >= b
  {}

  /** Counting spacings is shifting the count of frames. */
  lemma {:induction false} SpacingShift(a: nat, p: nat)
    ensures Shl(1152, p) >= 1 && a / Shl(1152, p) == Shr(a / 1152, p)
    decreases p
  {
    if p > 0 {
      SpacingShift(a / 2, p - 1);
      HalfDiv(a, Shl(1152, p - 1));
      assert a / 2 / 1152 == a / 1152 / 2;
    }
  }

  lemma {:induction false} ShrShr(v: nat, a: nat, b: nat)
    ensures Shr(Shr(v, a), b) == Shr(v, a + b)
  {
    if a > 0 { ShrShr(v / 2, a - 1, b); }
  }

  /** Groups of `1 << k` needed for `x` things. */
  function Groups(x: nat, k: nat): nat { Shr(x + Pow2(k) - 1, k) }

  /** Two more than a number makes at most two more groups than the number shifted. */
  lemma GroupsTwo(x: nat, r: nat, k: nat)
    requires x <= r + 2
    ensures Groups(x, k) <= Shr(r, k) + 2 && (x >= 1 ==> Groups(x, k) >= 1)
  {
    hide *;
    GroupsIs(x, k);
    Recompose(r, k);
    var h := Shr(r, k);
    ShlPlus(h, 1, k);
    ShlPlus(h + 1, 1, k);
    ShlPow2(k);
    ShrIn(h + 2, 0, k);
    ShrMono(x + Pow2(k) - 1, Shl(h + 2, k), k);
    if x >= 1 {
      ShrIn(1, 0, k);
      ShrMono(Shl(1, k), x + Pow2(k) - 1, k);
    }
  }

  lemma GroupsIs(x: nat, k: nat)
    ensures Groups(x, k) == Shr(x + Pow2(k) - 1, k) && Pow2(k) >= 1
  {}

  /** Coarsening only goes as far as it must. */
  lemma {:induction false} CoarsenNeeded(samples: nat, pwr: nat, diff: nat, c: Coarse)
    requires diff <= 31 && Coarsen(samples, pwr, diff) == Some(c)
    ensures c.diff >= diff && c.pwr - pwr == c.diff - diff && Entries(samples, c.pwr) == Some(c.cap)
    ensures c.diff > diff ==> c.pwr >= 1 && Entries(samples, c.pwr - 1).Some? && Entries(samples, c.pwr - 1).value > MAX_SEEK_TABLE_SIZE
    decreases 31 - diff
  {
    hide Entries;
    CoarsenIs(samples, pwr, diff);
    if Entries(samples, pwr).value > MAX_SEEK_TABLE_SIZE {
      CoarsenNeeded(samples, pwr + 1, diff + 1, c);
    }
  }

  lemma EntriesAre(samples: nat, pwr: nat)
    ensures Entries(samples, pwr).Some? ==> Entries(samples, pwr).value == 2 + Shr(samples / 1152, pwr)
  {
    hide Shl, Shr;
    SpacingShift(samples, pwr);
  }

  /** The steps of the decimation stay far below the width of the register they are counted in. */
  lemma StepsSmall(samples: nat, pwr: nat, c: Coarse)
    requires samples < 0x1_0000_0000 && Coarsen(samples, pwr, 0) == Some(c)
    ensures Pow2(c.diff) <= 0x80_0000
  {
    hide *;
    CoarsenNeeded(samples, pwr, 0, c);
    var q := samples / 1152;
    if c.diff > 0 {
      var m := c.pwr - 1;
      EntriesAre(samples, m);
      Recompose(q, m);
      ShlMono(1, Shr(q, m), m);
      ShlPow2(m);
      Pow2Mono(c.diff - 1, m);
      Pow2Step(c.diff - 1);
    } else {
      Pow2Zero();
    }
  }

  /** A table with no more entries than the length of the stream makes room for is never refused for its size,
      however often its spacing is doubled. */
  lemma RoomKept(n: nat, samples: nat, pwr: nat, c: Coarse)
    requires samples < 0x1_0000_0000 && Coarsen(samples, pwr, 0) == Some(c)
    requires 1 <= n && Entries(samples, pwr).Some? && n <= Entries(samples, pwr).value
    ensures 1 <= Kept(n, c) <= c.cap && Clamp(n, c) == n
  {
    hide *;
    CoarsenNeeded(samples, pwr, 0, c);
    StepsSmall(samples, pwr, c);
    EntriesAre(samples, pwr);
    EntriesAre(samples, c.pwr);
    var q := samples / 1152;
    ShrShr(q, pwr, c.diff);
    GroupsTwo(n, Shr(q, pwr), c.diff);
    GroupsIs(n, c.diff);
    ShrLe(q, pwr);
    Pow2Facts();
    LowId(n + Pow2(c.diff) - 1, 32);
    SizeIs(n, c.diff);
    ShrMono(n, n + Pow2(c.diff) - 1, c.diff);
    ClampSmall(n, c);
  }

  lemma ClampSmall(n: nat, c: Coarse)
    requires Shr(n, c.diff) <= c.cap
    ensures Clamp(n, c) == n && Kept(n, c) == TableSize(n, c.diff)
  {
    hide Shr, Shl, TableSize;
  }

  lemma {:induction false} ShrLe(v: nat, n: nat)
    ensures Shr(v, n) <= v
  {
    if n > 0 { ShrLe(v / 2, n - 1); }
  }

  /** Frames the encoder's main loop makes of a stream: just enough for all samples and the delay. */
  function FrameCount(samples: nat): (n: nat)
    ensures 1152 * (n - 1) < samples + 481 <= 1152 * n
  {
    (samples + 481 + 1151) / 1152
  }

  /** The encoder's table is one of them: an entry for every `1 << pwr` blocks of `1 << blockPwr` frames. So the
      reader never refuses it for its size. */
  lemma WriterFits(samples: nat, blockPwr: nat, pwr: nat, n: nat, c: Coarse)
    requires 0 < samples < 0x1_0000_0000 && Coarsen(samples, blockPwr + pwr, 0) == Some(c)
    requires n == Groups(Groups(FrameCount(samples), blockPwr), pwr)
    ensures 1 <= n && Entries(samples, blockPwr + pwr).Some? && n <= Entries(samples, blockPwr + pwr).value
    ensures 1 <= Kept(n, c) <= c.cap && Clamp(n, c) == n
  {
    hide Coarsen, Entries, Groups, Shr, Kept, Clamp;
    var q := samples / 1152;
    var frames := FrameCount(samples);
    assert 1 <= frames <= q + 2;
    GroupsTwo(frames, q, blockPwr);
    GroupsTwo(Groups(frames, blockPwr), Shr(q, blockPwr), pwr);
    ShrShr(q, blockPwr, pwr);
    CoarsenIs(samples, blockPwr + pwr, 0);
    EntriesAre(samples, blockPwr + pwr);
    RoomKept(n, samples, blockPwr + pwr, c);
  }

  lemma ShlNone()
    ensures forall j: nat :: Shl(j, 0) == j
  {}

  lemma {:induction false} PickAll(full: seq<nat>, size: nat)
    requires 0 < size <= |full| && Shl(size - 1, 0) == size - 1
    ensures Pick(full, 0, size) == full[..size]
  {
    hide Pick;
    forall j | 0 <= j < size ensures Pick(full, 0, size)[j] == full[j] { PickAt(full, 0, size, j); assert Shl(j, 0) == j; }
  }

  lemma SmallNeeded(t: seq<nat>, ref: nat, header: nat, rest: Bits, table: seq<nat>)
    requires TableOk(t, ref, header) && 1 < |t| == TableSize(|t|, 0)
    requires var p := STEntries(EntriesBits(t, ref, header) + rest, header, |t|, 0, |t|); p.Got? && p.value == table
    requires |table| == |t| && forall j :: 0 <= j < |t| ==> table[j] == At(t, ref, header, j)
    ensures forall i :: 2 <= i < |t| ==> Small(t, i)
  {
    hide *;
    var n := |t|;
    EntriesIs(t, ref, header, rest);
    StartAt(t, ref, header, 0);
    StartAt(t, ref, header, 1);
    var s2 := TailBits(t, 2) + rest;
    StSizeRoundTrip(t[0] - ref, SizeBits(t[1] - ref) + s2);
    StSizeRoundTrip(t[1] - ref, s2);
    var first, second := At(t, ref, header, 0) as nat, At(t, ref, header, 1) as nat;
    STEntriesIs(EntriesBits(t, ref, header) + rest, header, n, 0, n, t[0] - ref, SizeBits(t[1] - ref) + s2, first);
    var p := TailDec(s2, 2, n, first, second);
    ShlNone();
    PickAll([first, second] + p.value, n);
    TailIs([first, second] + p.value, table, p.value, t, ref, header);
    TailConverse(t, ref, header, 2, n, rest);
  }

  lemma TailIs(full: seq<nat>, table: seq<nat>, tail: seq<nat>, t: seq<nat>, ref: nat, header: nat)
    requires |full| == |t| == |table| >= 2 && full[..|t|] == table && |tail| == |t| - 2 && full[2..] == tail
    requires forall j :: 0 <= j < |t| ==> table[j] == At(t, ref, header, j)
    ensures tail == AtFrom(t, ref, header, 2, |t|)
  {
    hide At, AtFrom;
    forall j | 0 <= j < |t| - 2 ensures tail[j] == AtFrom(t, ref, header, 2, |t|)[j] {
      assert tail[j] == full[2..][j] == full[j + 2] == full[..|t|][j + 2];
      AtFromAt(t, ref, header, 2, |t|, j + 2);
    }
  }

  // ----- the writer -----

  /** Writes size bytes out as they are. */
  method WriteSize(e: BitWriter, v: nat)
    requires v < 0x1000_0000_0000_0000 && e.Valid() && e.Free() >= |SizeBits(v)|
    modifies e, e.buffer
    ensures e.Valid() && e.buffer == old(e.buffer)
    ensures e.Contents() == old(e.Contents()) + SizeBits(v) && e.Free() == old(e.Free()) - |SizeBits(v)|
  {
    hide *;
    OffsetFits(v);
    SizeBitsIs(v);
    var tmp := new Byte[10];
    var len := EncodeSize(v, tmp, false);
    ghost var code, start := tmp[..len], e.Contents();
    var i := 0;
    NoBytes(code, start);
    while i < len
      invariant 0 <= i <= len <= 10 == tmp.Length && tmp[..len] == code && fresh(tmp)
      invariant e.Valid() && e.buffer == old(e.buffer)
      invariant e.Contents() == start + BytesToBits(code[..i]) && e.Free() + 8 * i == old(e.Free())
      modifies e, e.buffer
    {
      ByteFits(code[i]);
      NextByte(code, i);
      Assoc(start, BytesToBits(code[..i]), Enc(code[i] as nat, 8));
      assert tmp[i] == code[i];
      e.WriteBits(tmp[i] as nat, 8);
      i := i + 1;
    }
    assert code[..len] == code;
  }

  lemma NoBytes(code: seq<Byte>, start: Bits)
    ensures start == start + BytesToBits(code[..0])
  {}

  lemma ByteFits(b: Byte)
    ensures b as nat < Pow2(8) && 0 <= b as nat
  {
    Pow2Facts();
  }

  lemma NextByte(code: seq<Byte>, i: nat)
    requires i < |code|
    ensures BytesToBits(code[..i + 1]) == BytesToBits(code[..i]) + Enc(code[i] as nat, 8)
  {
    hide *;
    assert code[..i + 1] == code[..i] + [code[i]];
    BytesConcat(code[..i], [code[i]]);
    OneByte(code[i]);
  }

  lemma TableAt(t: seq<nat>, ref: nat, header: nat)
    requires TableOk(t, ref, header)
    ensures 1 <= |t| < 0x1_0000_0000 && 0 <= t[0] - ref < 0x1000_0000_0000_0000
    ensures |t| > 1 ==> 0 <= t[1] - ref < 0x1000_0000_0000_0000
  {}

  lemma TailNone(t: seq<nat>, i: nat)
    requires 2 <= i && i >= |t|
    ensures TailBits(t, i) == []
  {}

  lemma NoMore(s: Bits)
    ensures s + [] == s
  {}

  lemma SeekDeltaIs(diff: int)
    ensures SeekDelta(diff) == (if diff < 0 then -2 * diff + 1 else 2 * diff) % 0x1_0000_0000
  {}

  /** The content of the seek table block. */
  method WriteSeekTable(e: BitWriter, table: seq<nat>, seekPwr: nat, ref: nat, ghost header: nat)
    requires TableOk(table, ref, header) && seekPwr < 16 && 1 <= |table|
    requires e.Valid() && e.Free() >= |SeekBits(table, seekPwr, ref, header)|
    modifies e, e.buffer
    ensures e.Valid() && e.buffer == old(e.buffer)
    ensures e.Contents() == old(e.Contents()) + SeekBits(table, seekPwr, ref, header)
  {
    hide *;
    TableAt(table, ref, header);
    SeekBitsIs(table, seekPwr, ref, header, []);
    EntriesIs(table, ref, header, []);
    NoMore(SeekBits(table, seekPwr, ref, header));
    NoMore(EntriesBits(table, ref, header));
    NoMore(TailBits(table, 2));
    NoMore(SizeBits(table[0] - ref));
    Pow2Facts();
    ghost var start := e.Contents();
    Assoc(start, SizeBits(|table|), Enc(seekPwr, 4) + EntriesBits(table, ref, header));
    Assoc(start + SizeBits(|table|), Enc(seekPwr, 4), EntriesBits(table, ref, header));
    WriteSize(e, |table|);
    e.WriteBits(seekPwr, 4);
    if |table| > 1 {
      Assoc(e.Contents(), SizeBits(table[0] - ref), SizeBits(table[1] - ref) + TailBits(table, 2));
      Assoc(e.Contents() + SizeBits(table[0] - ref), SizeBits(table[1] - ref), TailBits(table, 2));
    }
    WriteSize(e, table[0] - ref);
    if |table| > 1 {
      WriteSize(e, table[1] - ref);
      ghost var target := e.Contents() + TailBits(table, 2);
      var i := 2;
      while i < |table|
        invariant 2 <= i <= |table| && e.Valid() && e.buffer == old(e.buffer)
        invariant e.Contents() + TailBits(table, i) == target && e.Free() >= |TailBits(table, i)|
      {
        var diff: int := table[i] as int - 2 * table[i - 1] as int + table[i - 2] as int;
        DiffIs(table, i);
        SeekDeltaIs(diff);
        TailStep(table, i, []);
        NoMore(TailBits(table, i));
        NoMore(TailBits(table, i + 1));
        Assoc(e.Contents(), GolombBits(SeekDelta(diff), 12), TailBits(table, i + 1));
        EncodeGolomb(e, SeekDelta(diff), 12);
        i := i + 1;
      }
      TailNone(table, i);
      NoMore(e.Contents());
    }
  }

  lemma DiffIs(t: seq<nat>, i: nat)
    requires 2 <= i < |t|
    ensures Diff(t, i) == t[i] as int - 2 * t[i - 1] as int + t[i - 2] as int
  {}

  // ----- the reader -----

  /** A bounded bit cursor over the block's bytes. */
  class StReader {
    const data: seq<Byte>
    var bitPos: nat

    ghost predicate Valid()
      reads this
    {
      bitPos <= 8 * |data|
    }

    ghost function Remaining(): Bits
      requires Valid()
      reads this
    {
      BytesToBits(data)[bitPos..]
    }

    constructor (data: seq<Byte>)
      ensures Valid() && this.data == data && bitPos == 0 && Remaining() == BytesToBits(data)
    {
      this.data, bitPos := data, 0;
    }

    /** `bits` bits, one at a time; nothing is consumed when there are too few. */
    method Read(bits: nat) returns (r: Option<nat>)
      requires Valid() && bits <= 32
      modifies this`bitPos
      ensures Valid()
      ensures match r
              case None => Take(old(Remaining()), bits).NoData? && bitPos == old(bitPos)
              case Some(v) => Take(old(Remaining()), bits) == Got(v, Remaining())
    {
      hide BytesToBits, Val, Low, Shr;
      if bits > 8 * |data| - bitPos {
        return None;
      }
      var result := 0;
      var i := 0;
      ghost var all, at := BytesToBits(data), bitPos;
      EmptyVal2(all, at);
      while i < bits
        invariant 0 <= i <= bits && bitPos == at + i
        invariant result == Val(all[at..at + i])
      {
        BitAt(data, bitPos);
        SliceSnoc(all, at, at + i);
        result := 2 * result + Shr(data[bitPos / 8] as nat, 7 - bitPos % 8) % 2;
        bitPos := bitPos + 1;
        i := i + 1;
      }
      DropTake(all, at, bits);
      DropDrop(all, at, bits);
      r := Some(result);
    }
  }

  lemma EmptyVal2(all: Bits, at: nat)
    requires at <= |all|
    ensures Val(all[at..at]) == 0
  {}

  lemma SliceSnoc(all: Bits, a: nat, n: nat)
    requires a <= n < |all|
    ensures Val(all[a..n + 1]) == 2 * Val(all[a..n]) + Bit(all[n])
  {
    var b := all[a..n + 1];
    assert b[..|b| - 1] == all[a..n];
  }

  /** The bit under the cursor. */
  lemma BitAt(data: seq<Byte>, p: nat)
    requires p < 8 * |data|
    ensures p / 8 < |data| && Bit(BytesToBits(data)[p]) == Shr(data[p / 8] as nat, 7 - p % 8) % 2
  {
    hide BytesToBits;
    var k, c := p / 8, p % 8;
    assert p == 8 * k + c;
    ByteBits(data, k);
    var e := BytesToBits(data)[8 * k..8 * k + 8];
    assert e[c] == BytesToBits(data)[p];
    EncAt(data[k] as nat, 8, c);
  }

  lemma {:induction false} EncAt(v: nat, n: nat, c: nat)
    requires c < n
    ensures Enc(v, n)[c] == (Shr(v, n - 1 - c) % 2 == 1)
  {
    if c < n - 1 { EncAt(v / 2, n - 1, c); }
  }

  lemma StSizeStep(s: Bits, acc: nat, n: nat)
    requires n <= 10
    ensures n == 10 ==> StSizeDec(s, acc, n).NoData?
    ensures n < 10 ==>
              var p := Take(s, 8);
              StSizeDec(s, acc, n)
              == if p.NoData? || acc > 0x1FF_FFFF_FFFF_FFFF then NoData
                 else if p.value < 128 then Got(128 * acc + p.value, p.rest)
                 else StSizeDec(p.rest, 128 * acc + p.value % 128, n + 1)
  {
    hide Take;
  }

  method ReadSize(r: StReader) returns (v: Option<nat>)
    requires r.Valid()
    modifies r`bitPos
    ensures r.Valid()
    ensures match v
            case None => StSizeDec(old(r.Remaining()), 0, 0).NoData?
            case Some(x) => StSizeDec(old(r.Remaining()), 0, 0) == Got(x, r.Remaining())
  {
    hide *;
    var result: nat, count: nat := 0, 0;
    while count < 10
      invariant 0 <= count <= 10 && r.Valid()
      invariant StSizeDec(old(r.Remaining()), 0, 0) == StSizeDec(r.Remaining(), result, count)
    {
      StSizeStep(r.Remaining(), result, count);
      var digit := r.Read(8);
      if digit.None? || result > 0x1FF_FFFF_FFFF_FFFF {
        return None;
      }
      result := 128 * result + digit.value % 128;
      if digit.value < 128 {
        return Some(result);
      }
      count := count + 1;
    }
    StSizeStep(r.Remaining(), result, count);
    v := None;
  }

  /** Counts zeros, giving up when the value could not fit. */
  method ReadGolomb(r: StReader) returns (v: Option<nat>)
    requires r.Valid()
    modifies r`bitPos
    ensures r.Valid()
    ensures match v
            case None => StGolombDec(old(r.Remaining())).NoData?
            case Some(x) => StGolombDec(old(r.Remaining())) == Got(x, r.Remaining())
  {
    hide *;
    ghost var s := r.Remaining();
    var prefix: nat := 0;
    var done := false;
    CountStart(s);
    while !done
      invariant r.Valid()
      invariant !done ==> prefix <= 524287 && Zeros(s, prefix, Unary(r.Remaining()))
      invariant done ==> prefix <= 524287 && Unary(s) == Got(prefix, r.Remaining())
      decreases !done, 524288 - prefix
    {
      CountNext(s, prefix, r.Remaining());
      var bit := r.Read(1);
      if bit.None? {
        GolombCut(s);
        return None;
      }
      if bit.value == 0 {
        prefix := prefix + 1;
        if prefix > 524287 {
          GolombBig(s, prefix, Unary(r.Remaining()));
          return None;
        }
      } else {
        done := true;
      }
    }
    GolombCases(s, prefix, r.Remaining());
    var suffix := r.Read(12);
    if suffix.None? {
      return None;
    }
    v := Some(4096 * prefix + suffix.value);
  }

  /** The unary count of `s` is `n` more than that of the rest. */
  ghost predicate Zeros(s: Bits, n: nat, u: Parsed<nat>)
  {
    if u.Got? then Unary(s) == Got(n + u.value, u.rest) else Unary(s).NoData?
  }

  lemma CountStart(s: Bits)
    ensures Zeros(s, 0, Unary(s))
  {
    hide Unary;
  }

  lemma CountNext(s: Bits, n: nat, t: Bits)
    ensures Take(t, 1).NoData? && Zeros(s, n, Unary(t)) ==> Unary(s).NoData?
    ensures Take(t, 1).Got? && Zeros(s, n, Unary(t)) ==>
              if Take(t, 1).value == 0 then Zeros(s, n + 1, Unary(Take(t, 1).rest))
              else Unary(s) == Got(n, Take(t, 1).rest)
  {
    if t != [] {
      assert t[..1] == [t[0]];
      ValOne(t[0]);
      hide Val;
    }
  }

  lemma GolombCut(s: Bits)
    requires Unary(s).NoData?
    ensures StGolombDec(s).NoData?
  {}

  lemma {:induction false} ShlTwelve(v: nat)
    ensures Shl(v, 12) == 4096 * v
  {
    hide Shl;
    Shl8(v);
    ShlShl(v, 8, 2);
    ShlShl(v, 10, 2);
    ShlTwo(256 * v);
    ShlTwo(1024 * v);
  }

  lemma ShlTwo(v: nat)
    ensures Shl(v, 2) == 4 * v
  {
    assert Shl(v, 1) == 2 * v;
  }

  lemma GolombBig(s: Bits, n: nat, u: Parsed<nat>)
    requires Zeros(s, n, u) && n > 524287
    ensures StGolombDec(s).NoData?
  {
    hide Unary, Val, Shl;
    if Unary(s).Got? { ShlTwelve(Unary(s).value); }
  }

  lemma GolombCases(s: Bits, n: nat, t: Bits)
    requires Unary(s) == Got(n, t) && n <= 524287
    ensures Take(t, 12).NoData? ==> StGolombDec(s).NoData?
    ensures Take(t, 12).Got? ==> StGolombDec(s) == Got(4096 * n + Take(t, 12).value, Take(t, 12).rest)
  {
    hide Unary, Val, Shl, Pow2;
    ShlTwelve(n);
    Pow2Twelve();
  }

  lemma Pow2Twelve()
    ensures Pow2(12) == 4096
  {
    ShlTwelve(1);
    ShlPow2(12);
  }

  method CoarsenLoop(samples: nat, blockPwr: nat) returns (c: Option<Coarse>)
    ensures c == Coarsen(samples, blockPwr, 0)
  {
    hide *;
    var pwr: nat, diff: nat := blockPwr, 0;
    CoarsenIs(samples, pwr, diff);
    var tmp := Entries(samples, pwr);
    while tmp.Some? && tmp.value > MAX_SEEK_TABLE_SIZE
      invariant diff <= 31 && tmp == Entries(samples, pwr)
      invariant Coarsen(samples, blockPwr, 0) == Coarsen(samples, pwr, diff)
      decreases 31 - diff
    {
      CoarsenIs(samples, pwr, diff);
      if pwr >= 63 || diff >= 31 {
        return None;
      }
      pwr, diff := pwr + 1, diff + 1;
      tmp := Entries(samples, pwr);
    }
    CoarsenIs(samples, pwr, diff);
    c := if tmp.None? then None else Some(Coarse(tmp.value, pwr, diff));
  }

  lemma CoarsenIs(samples: nat, pwr: nat, diff: nat)
    requires diff <= 31
    ensures var n := Entries(samples, pwr);
            Coarsen(samples, pwr, diff)
            == if n.None? then None
               else if n.value <= MAX_SEEK_TABLE_SIZE then Some(Coarse(n.value, pwr, diff))
               else if pwr >= 63 || diff >= 31 then None
               else Coarsen(samples, pwr + 1, diff + 1)
  {
    hide Entries;
  }

  lemma {:induction false} ShrMono(a: nat, c: nat, n: nat)
    requires a <= c
    ensures Shr(a, n) <= Shr(c, n)
  {
    if n > 0 { ShrMono(a / 2, c / 2, n - 1); }
  }

  /** The 32-bit sum never wraps on a count that is accepted. */
  lemma NoWrap(n: nat, diff: nat)
    requires n < 0x1_0000_0000 && diff <= 31 && TableSize(n, diff) > 0
    ensures TableSize(n, diff) == Shr(n + Pow2(diff) - 1, diff)
  {
    hide *;
    SizeIs(n, diff);
    Pow2Facts();
    Pow2Mono(diff, 31);
    Pow31();
    var m := n + Pow2(diff) - 1;
    if m < 0x1_0000_0000 {
      LowId(m, 32);
    } else {
      var over := m - 0x1_0000_0000;
      ShlPow2(32);
      ShrIn(1, over, 32);
      Pow2Low(over, diff);
    }
  }

  lemma Pow31()
    ensures Pow2(31) == 0x8000_0000
  {
    hide Pow2;
    Pow2Facts();
    assert Pow2(32) == 2 * Pow2(31) by { Pow2Step(31); }
  }

  lemma Pow2Step(n: nat)
    ensures Pow2(n + 1) == 2 * Pow2(n)
  {}

  /** A kept entry has a place in the table. */
  lemma SlotFits(n: nat, diff: nat, i: nat)
    requires n < 0x1_0000_0000 && diff <= 31 && TableSize(n, diff) > 0 && i < n && Low(i, diff) == 0
    ensures Shr(i, diff) < TableSize(n, diff) && Shl(Shr(i, diff), diff) == i
  {
    hide *;
    NoWrap(n, diff);
    SizeIs(n, diff);
    Recompose(i, diff);
    var q := Shr(i, diff);
    ShlPlus(q, 1, diff);
    ShlPow2(diff);
    ShrIn(q + 1, 0, diff);
    ShrMono(Shl(q + 1, diff), n + Pow2(diff) - 1, diff);
  }

  lemma {:induction false} ShlInjective(a: nat, c: nat, n: nat)
    requires Shl(a, n) == Shl(c, n)
    ensures a == c
  {
    if n > 0 { ShlInjective(a, c, n - 1); }
  }

  /** What is still to be read, behind what has been. */
  ghost predicate Joined(whole: Parsed<seq<nat>>, done: seq<nat>, part: Parsed<seq<nat>>)
  {
    whole == if part.NoData? then NoData else Got(done + part.value, part.rest)
  }

  lemma JoinedStart(p: Parsed<seq<nat>>)
    ensures Joined(p, [], p)
  {
    if p.Got? { assert [] + p.value == p.value; }
  }

  lemma JoinedMore(whole: Parsed<seq<nat>>, done: seq<nat>, part: Parsed<seq<nat>>, x: nat, next: Parsed<seq<nat>>)
    requires Joined(whole, done, part)
    requires part == if next.NoData? then NoData else Got([x] + next.value, next.rest)
    ensures Joined(whole, done + [x], next)
  {
    if next.Got? { Assoc(done, [x], next.value); }
  }

  lemma JoinedDone(whole: Parsed<seq<nat>>, done: seq<nat>, part: Parsed<seq<nat>>, s: Bits)
    requires Joined(whole, done, part)
    ensures part == Got([], s) ==> whole == Got(done, s)
    ensures part.NoData? ==> whole.NoData?
  {
    assert done + [] == done;
  }

  lemma PredictIs(before: nat, last: nat, delta: int)
    ensures Predict(before, last, delta)
         == if last > U64_MAX / 2 || 2 * last < before then None
            else var value := 2 * last - before;
                 if (delta < 0 && value < -delta) || (delta >= 0 && value > U64_MAX - delta) then None
                 else Some((value + delta) as nat)
  {}

  lemma UndeltaIs(code: nat)
    ensures Undelta(code) == if code % 2 == 1 then -4 * (code - 1) else 4 * code
  {}

  /** Entries kept so far. */
  ghost predicate Placed(table: seq<nat>, size: nat, full: seq<nat>, diff: nat)
    requires size <= |table|
  {
    forall j :: 0 <= j < size && Shl(j, diff) < |full| ==> table[j] == full[Shl(j, diff)]
  }

  lemma PlacedStep(table: seq<nat>, size: nat, full: seq<nat>, diff: nat, n: nat, x: nat)
    requires size <= |table| && Placed(table, size, full, diff) && |full| < n < 0x1_0000_0000 && diff <= 31
    requires size == TableSize(n, diff) && size > 0
    ensures Low(|full|, diff) == 0 ==>
              Shr(|full|, diff) < size && Placed(table[Shr(|full|, diff) := x], size, full + [x], diff)
    ensures Low(|full|, diff) != 0 ==> Placed(table, size, full + [x], diff)
  {
    hide Shl, Shr, Low, TableSize;
    var i := |full|;
    if Low(i, diff) == 0 {
      SlotFits(n, diff, i);
      var q := Shr(i, diff);
      forall j | 0 <= j < size && Shl(j, diff) < i + 1 ensures table[q := x][j] == (full + [x])[Shl(j, diff)] {
        if Shl(j, diff) == i { ShlInjective(j, q, diff); }
      }
    } else {
      forall j | 0 <= j < size && Shl(j, diff) < i + 1 ensures table[j] == (full + [x])[Shl(j, diff)] {
        if Shl(j, diff) == i {
          Pow2Pos(diff);
          ShrIn(j, 0, diff);
        }
      }
    }
  }

  lemma PlacedAll(table: seq<nat>, size: nat, full: seq<nat>, diff: nat)
    requires 0 < size <= |table| && Placed(table, size, full, diff) && Shl(size - 1, diff) < |full|
    ensures table[..size] == Pick(full, diff, size)
  {
    hide Shl, Pick;
    forall j | 0 <= j < size ensures table[j] == Pick(full, diff, size)[j] {
      ShlMono(j, size - 1, diff);
      PickAt(full, diff, size, j);
    }
  }

  lemma PlacedFirst(table: seq<nat>, size: nat, diff: nat, first: nat, second: nat)
    requires 2 <= size <= |table| && table[0] == first && (diff == 0 ==> table[1] == second)
    ensures Placed(table, size, [first, second], diff)
  {
    forall j | 0 <= j < size && Shl(j, diff) < 2 ensures table[j] == [first, second][Shl(j, diff)] {
      if j == 0 {
        ShlZero(diff);
      } else {
        ShlGrow(j, diff);
      }
    }
  }

  lemma {:induction false} ShlGrow(j: nat, n: nat)
    requires j >= 1
    ensures Shl(j, n) >= if n > 0 then 2 * j else j
  {
    if n > 0 { ShlGrow(j, n - 1); }
  }

  /** The list of positions, with the last two kept in a ring of two. */
  method ReadTail(r: StReader, n: nat, diff: nat, size: nat, table: array<nat>, first: nat, second: nat)
    returns (ok: bool, ghost full: seq<nat>)
    requires r.Valid() && 2 <= n < 0x1_0000_0000 && diff <= 31 && 2 <= size == TableSize(n, diff) && size <= table.Length
    requires Placed(table[..], size, [first, second], diff)
    modifies r`bitPos, table
    ensures r.Valid()
    ensures !ok ==> TailDec(old(r.Remaining()), 2, n, first, second).NoData?
    ensures ok ==> var p := TailDec(old(r.Remaining()), 2, n, first, second);
                   p.Got? && p.rest == r.Remaining() && full == [first, second] + p.value && |full| == n
                   && Placed(table[..], size, full, diff)
  {
    hide *;
    ghost var whole := TailDec(r.Remaining(), 2, n, first, second);
    ghost var done: seq<nat> := [];
    full := [first, second];
    var last := new nat[2];
    last[0], last[1] := first, second;
    var i: nat := 2;
    JoinedStart(whole);
    assert [first, second] + done == [first, second];
    while i < n
      invariant 2 <= i <= n && r.Valid() && |full| == i && fresh(last) && last.Length == 2
      invariant full == [first, second] + done
      invariant last[i % 2] == full[i - 2] && last[(i - 1) % 2] == full[i - 1]
      invariant Joined(whole, done, TailDec(r.Remaining(), i, n, full[i - 2], full[i - 1]))
      invariant Placed(table[..], size, full, diff)
    {
      ghost var part := TailDec(r.Remaining(), i, n, full[i - 2], full[i - 1]);
      TailDecIs(r.Remaining(), i, n, full[i - 2], full[i - 1]);
      JoinedDone(whole, done, part, r.Remaining());
      var code := ReadGolomb(r);
      if code.None? {
        return false, full;
      }
      var delta: int := if code.value % 2 == 1 then -4 * (code.value - 1) else 4 * code.value;
      UndeltaIs(code.value);
      PredictIs(full[i - 2], full[i - 1], delta);
      if last[(i - 1) % 2] > U64_MAX / 2 {
        return false, full;
      }
      var value: int := 2 * last[(i - 1) % 2];
      if value < last[i % 2] {
        return false, full;
      }
      value := value - last[i % 2];
      if (delta < 0 && value < -delta) || (delta >= 0 && value > U64_MAX - delta) {
        return false, full;
      }
      value := value + delta;
      PlacedStep(table[..], size, full, diff, n, value);
      JoinedMore(whole, done, part, value, TailDec(r.Remaining(), i + 1, n, full[i - 1], value));
      Assoc([first, second], done, [value]);
      last[i % 2] := value;
      if Low(i, diff) == 0 {
        table[Shr(i, diff)] := value;
      }
      Parity(i);
      full, done := full + [value], done + [value];
      i := i + 1;
    }
    TailDecIs(r.Remaining(), i, n, full[i - 2], full[i - 1]);
    JoinedDone(whole, done, TailDec(r.Remaining(), i, n, full[i - 2], full[i - 1]), r.Remaining());
    ok := true;
  }

  lemma Parity(i: nat)
    ensures i % 2 != (i + 1) % 2 && (i + 1) % 2 == (i - 1) % 2
  {}

  lemma STEntriesFail(s: Bits, header: int, n: nat, diff: nat, size: nat)
    requires size >= 1 && size == TableSize(n, diff)
    ensures StSizeDec(s, 0, 0).NoData? || Start(StSizeDec(s, 0, 0).value, header).None? ==>
              STEntries(s, header, n, diff, size).NoData?
    ensures StSizeDec(s, 0, 0).Got? && size > 1 && Start(StSizeDec(s, 0, 0).value, header).Some? ==>
              var p := StSizeDec(StSizeDec(s, 0, 0).rest, 0, 0);
              p.NoData? || Start(p.value, header).None? ==> STEntries(s, header, n, diff, size).NoData?
  {
    hide StSizeDec, Start, TailDec, TableSize, Pick, Shl;
  }

  method ReadEntries(r: StReader, header: int, n: nat, diff: nat, size: nat, cap: nat) returns (t: Option<seq<nat>>)
    requires r.Valid() && 1 <= n < 0x1_0000_0000 && diff <= 31 && 1 <= size == TableSize(n, diff) && size <= cap
    modifies r`bitPos
    ensures r.Valid()
    ensures match t
            case None => STEntries(old(r.Remaining()), header, n, diff, size).NoData?
            case Some(x) => STEntries(old(r.Remaining()), header, n, diff, size) == Got(x, r.Remaining())
  {
    hide *;
    ghost var s := r.Remaining();
    STEntriesFail(s, header, n, diff, size);
    var table := new nat[cap];
    var tmp := ReadSize(r);
    if tmp.None? { return None; }
    var first := Start(tmp.value, header);
    if first.None? { return None; }
    STEntriesIs(s, header, n, diff, size, tmp.value, r.Remaining(), first.value);
    table[0] := first.value;
    if size == 1 {
      assert table[..1] == [first.value];
      return Some(table[..1]);
    }
    KeptTwo(n, diff, size);
    tmp := ReadSize(r);
    if tmp.None? { return None; }
    var second := Start(tmp.value, header);
    if second.None? { return None; }
    if diff == 0 { table[1] := second.value; }
    PlacedFirst(table[..], size, diff, first.value, second.value);
    var ok; ghost var full;
    ok, full := ReadTail(r, n, diff, size, table, first.value, second.value);
    if !ok { return None; }
    SizeReach(n, diff);
    PlacedAll(table[..], size, full, diff);
    assert table[..][..size] == table[..size];
    t := Some(table[..size]);
  }

  /** The seek table block. */
  method ReadST(data: seq<Byte>, info: Info) returns (t: Option<Index>)
    ensures match t
            case None => STParse(BytesToBits(data), info).NoData?
            case Some(x) => STParse(BytesToBits(data), info).Got? && STParse(BytesToBits(data), info).value == x
  {
    hide *;
    var r := new StReader(data);
    ghost var s := r.Remaining();
    STParseCases(s, info);
    var n := ReadSize(r);
    if n.None? || n.value == 0 || n.value >= 0x1_0000_0000 { return None; }
    ghost var s1 := r.Remaining();
    var step := r.Read(4);
    if step.None? { return None; }
    var c := CoarsenLoop(info.samples, info.blockPwr + step.value);
    if c.None? { return None; }
    STParseIs(s, info, n.value, s1, step.value, r.Remaining(), c.value);
    CoarseBounds(info.samples, info.blockPwr + step.value, c.value);
    ClampLe(n.value, c.value);
    var fileTableSize := Clamp(n.value, c.value);
    var size := TableSize(fileTableSize, c.value.diff);
    if size == 0 || size > c.value.cap { return None; }
    SizeReach(fileTableSize, c.value.diff);
    var table := ReadEntries(r, info.header, fileTableSize, c.value.diff, size, c.value.cap);
    if table.None? { return None; }
    t := Some(Index(table.value, c.value.pwr));
  }

  lemma CoarseBounds(samples: nat, pwr: nat, c: Coarse)
    requires Coarsen(samples, pwr, 0) == Some(c)
    ensures c.diff <= 31
  {
    hide Coarsen;
  }

  lemma STParseCases(s: Bits, info: Info)
    ensures StSizeDec(s, 0, 0).NoData? ==> STParse(s, info).NoData?
    ensures StSizeDec(s, 0, 0).Got? ==>
              var n, s1 := StSizeDec(s, 0, 0).value, StSizeDec(s, 0, 0).rest;
              (n == 0 || n >= 0x1_0000_0000 || Take(s1, 4).NoData? ==> STParse(s, info).NoData?)
              && (Take(s1, 4).Got? && Coarsen(info.samples, info.blockPwr + Take(s1, 4).value, 0).None? ==>
                    STParse(s, info).NoData?)
  {
    hide StSizeDec, Take, Coarsen, STEntries, Clamp, TableSize;
  }
}
